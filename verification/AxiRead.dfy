/** The registers of the analyzer as the processor reads them
  (lib/hw/lsi/cores/traffic_analyzer_gmii/hdl/traffic_analyzer_gmii_cpu_regs.v). */
module AxiRead {
  import opened Arithmetic
  import opened BramIo
  import opened Hexstr
  import opened TrafficAnalyzer

  const FRAME_SIZE: nat := 0x44
  const FRAME_BUF: nat := 0x50

  /** The 64-bit registers: the high word at the address, the low word 4 above it. */
  datatype Wide =
    | Pkts | Octets64 | OctetsIdle | TimestampSec | BadCrcPkts | BadCrcOctets | BadPreamblePkts | BadPreambleOctets
    | OctetsTotal | TestframePkts | SequenceErrors | LatencyMinSec | LatencyMaxSec | LatencySec
    | ErrorExpected | ErrorReceived | ErrorSec

  /** The 32-bit ones. */
  datatype Narrow = TimestampNsec | FrameSize | LatencyMinNsec | LatencyMaxNsec | LatencyNsec | ErrorNsec

  function WideAt(addr: nat): Option<Wide> {
    match addr
    case 0x20 => Some(Pkts)
    case 0x28 => Some(Octets64)
    case 0x30 => Some(OctetsIdle)
    case 0x38 => Some(TimestampSec)
    case 0x58 => Some(BadCrcPkts)
    case 0x60 => Some(BadCrcOctets)
    case 0x68 => Some(BadPreamblePkts)
    case 0x70 => Some(BadPreambleOctets)
    case 0x78 => Some(OctetsTotal)
    case 0x80 => Some(TestframePkts)
    case 0x88 => Some(SequenceErrors)
    case 0x90 => Some(LatencyMinSec)
    case 0xA0 => Some(LatencyMaxSec)
    case 0xB0 => Some(LatencySec)
    case 0xC0 => Some(ErrorExpected)
    case 0xC8 => Some(ErrorReceived)
    case 0xD0 => Some(ErrorSec)
    case _ => None
  }

  function NarrowAt(addr: nat): Option<Narrow> {
    match addr
    case 0x40 => Some(TimestampNsec)
    case 0x44 => Some(FrameSize)
    case 0x98 => Some(LatencyMinNsec)
    case 0xA8 => Some(LatencyMaxNsec)
    case 0xB8 => Some(LatencyNsec)
    case 0xD8 => Some(ErrorNsec)
    case _ => None
  }

  /** Where the program looks for them. */
  function WideAddress(w: Wide): (addr: nat)
    ensures WideAt(addr) == Some(w) && WideAt(addr + 4).None?
    ensures addr != FRAME_BUF && addr + 4 != FRAME_BUF && NarrowAt(addr).None? && NarrowAt(addr + 4).None?
  {
    match w
    case Pkts => 0x20
    case Octets64 => 0x28
    case OctetsIdle => 0x30
    case TimestampSec => 0x38
    case BadCrcPkts => 0x58
    case BadCrcOctets => 0x60
    case BadPreamblePkts => 0x68
    case BadPreambleOctets => 0x70
    case OctetsTotal => 0x78
    case TestframePkts => 0x80
    case SequenceErrors => 0x88
    case LatencyMinSec => 0x90
    case LatencyMaxSec => 0xA0
    case LatencySec => 0xB0
    case ErrorExpected => 0xC0
    case ErrorReceived => 0xC8
    case ErrorSec => 0xD0
  }

  function NarrowAddress(n: Narrow): (addr: nat)
    ensures NarrowAt(addr) == Some(n) && addr != FRAME_BUF && (addr == FRAME_SIZE <==> n == FrameSize)
  {
    match n
    case TimestampNsec => 0x40
    case FrameSize => 0x44
    case LatencyMinNsec => 0x98
    case LatencyMaxNsec => 0xA8
    case LatencyNsec => 0xB8
    case ErrorNsec => 0xD8
  }

  function WideValue(a: AnalyzerRegs, w: Wide): nat {
    var c, l := a.published.counters, a.latency;
    match w
    case Pkts => c.pkts
    case Octets64 => c.octets
    case OctetsIdle => a.octetsIdleReg
    case TimestampSec => a.published.timestamp.sec
    case BadCrcPkts => c.badCrcPkts
    case BadCrcOctets => c.badCrcOctets
    case BadPreamblePkts => c.badPreamblePkts
    case BadPreambleOctets => c.badPreambleOctets
    case OctetsTotal => a.octetsTotalReg
    case TestframePkts => c.testframePkts
    case SequenceErrors => c.sequenceErrors
    case LatencyMinSec => l.minReg.sec
    case LatencyMaxSec => l.maxReg.sec
    case LatencySec => l.lastReg.sec
    case ErrorExpected => c.errorExpected
    case ErrorReceived => c.errorReceived
    case ErrorSec => c.errorTime.sec
  }

  function NarrowValue(a: AnalyzerRegs, n: Narrow): nat {
    match n
    case TimestampNsec => a.published.timestamp.nsec
    case FrameSize => a.published.frameSize
    case LatencyMinNsec => a.latency.minReg.nsec
    case LatencyMaxNsec => a.latency.maxReg.nsec
    case LatencyNsec => a.latency.lastReg.nsec
    case ErrorNsec => a.published.counters.errorTime.nsec
  }

  const ID: nat := 0x1230_0002
  const VERSION: nat := 1

  /** Everything that can be read: the registers of the analyzer, and the one that shows the
    complement of what was last written to the flip register. */
  datatype RegisterFile = RegisterFile(ana: AnalyzerRegs, flip: nat)

  /** The 32 bits of a word. */
  function Bits32Of(w: Word): nat {
    w.b0 * 0x100_0000 + w.b1 * 0x1_0000 + w.b2 * 0x100 + w.b3
  }

  /** The multiplexer; addresses are relative to the base address of the core. */
  function ReadMux(a: RegisterFile, bufData: Word, addr: nat): (v: nat)
    ensures v < W32
  {
    if addr == FRAME_BUF then Bits32Of(bufData)
    else if NarrowAt(addr).Some? then NarrowValue(a.ana, NarrowAt(addr).value) % W32
    else if WideAt(addr).Some? then WideValue(a.ana, WideAt(addr).value) / W32 % W32
    else if addr >= 4 && WideAt(addr - 4).Some? then WideValue(a.ana, WideAt(addr - 4).value) % W32
    else if addr == 0 then ID
    else if addr == 4 then VERSION
    else if addr == 0xC then a.flip % W32
    else 0xDEAD_BEEF
  }

  // ---- the register map ----

  lemma MuxOfWide(a: RegisterFile, d: Word, w: Wide)
    ensures ReadMux(a, d, WideAddress(w)) == WideValue(a.ana, w) / W32 % W32
    ensures ReadMux(a, d, WideAddress(w) + 4) == WideValue(a.ana, w) % W32
  {
    hide WideAt;
    hide NarrowAt;
    hide WideAddress;
    hide WideValue;
    hide NarrowValue;
    hide Bits32Of;
  }

  lemma MuxOfNarrow(a: RegisterFile, d: Word, n: Narrow)
    ensures ReadMux(a, d, NarrowAddress(n)) == NarrowValue(a.ana, n) % W32
  {
    hide WideAt;
    hide NarrowAt;
    hide NarrowAddress;
    hide WideValue;
    hide NarrowValue;
    hide Bits32Of;
  }

  // Which register is read at which address, the high word of the wide ones at the lower one.

  lemma CounterAddresses(a: RegisterFile, d: Word)
    ensures ReadMux(a, d, 0x20) == a.ana.published.counters.pkts / W32 % W32
    ensures ReadMux(a, d, 0x24) == a.ana.published.counters.pkts % W32
    ensures ReadMux(a, d, 0x28) == a.ana.published.counters.octets / W32 % W32
    ensures ReadMux(a, d, 0x2C) == a.ana.published.counters.octets % W32
    ensures ReadMux(a, d, 0x30) == a.ana.octetsIdleReg / W32 % W32
    ensures ReadMux(a, d, 0x34) == a.ana.octetsIdleReg % W32
    ensures ReadMux(a, d, 0x58) == a.ana.published.counters.badCrcPkts / W32 % W32
    ensures ReadMux(a, d, 0x5C) == a.ana.published.counters.badCrcPkts % W32
    ensures ReadMux(a, d, 0x60) == a.ana.published.counters.badCrcOctets / W32 % W32
    ensures ReadMux(a, d, 0x64) == a.ana.published.counters.badCrcOctets % W32
    ensures ReadMux(a, d, 0x68) == a.ana.published.counters.badPreamblePkts / W32 % W32
    ensures ReadMux(a, d, 0x6C) == a.ana.published.counters.badPreamblePkts % W32
    ensures ReadMux(a, d, 0x70) == a.ana.published.counters.badPreambleOctets / W32 % W32
    ensures ReadMux(a, d, 0x74) == a.ana.published.counters.badPreambleOctets % W32
    ensures ReadMux(a, d, 0x78) == a.ana.octetsTotalReg / W32 % W32
    ensures ReadMux(a, d, 0x7C) == a.ana.octetsTotalReg % W32
    ensures ReadMux(a, d, 0x80) == a.ana.published.counters.testframePkts / W32 % W32
    ensures ReadMux(a, d, 0x84) == a.ana.published.counters.testframePkts % W32
    ensures ReadMux(a, d, 0x88) == a.ana.published.counters.sequenceErrors / W32 % W32
    ensures ReadMux(a, d, 0x8C) == a.ana.published.counters.sequenceErrors % W32
  {
    MuxOfWide(a, d, Pkts);
    MuxOfWide(a, d, Octets64);
    MuxOfWide(a, d, OctetsIdle);
    MuxOfWide(a, d, BadCrcPkts);
    MuxOfWide(a, d, BadCrcOctets);
    MuxOfWide(a, d, BadPreamblePkts);
    MuxOfWide(a, d, BadPreambleOctets);
    MuxOfWide(a, d, OctetsTotal);
    MuxOfWide(a, d, TestframePkts);
    MuxOfWide(a, d, SequenceErrors);
    hide ReadMux;
  }

  lemma TimeAddresses(a: RegisterFile, d: Word)
    ensures ReadMux(a, d, 0x38) == a.ana.published.timestamp.sec / W32 % W32
    ensures ReadMux(a, d, 0x3C) == a.ana.published.timestamp.sec % W32
    ensures ReadMux(a, d, 0x40) == a.ana.published.timestamp.nsec % W32
    ensures ReadMux(a, d, 0x44) == a.ana.published.frameSize % W32
    ensures ReadMux(a, d, 0x90) == a.ana.latency.minReg.sec / W32 % W32
    ensures ReadMux(a, d, 0x94) == a.ana.latency.minReg.sec % W32
    ensures ReadMux(a, d, 0x98) == a.ana.latency.minReg.nsec % W32
    ensures ReadMux(a, d, 0xA0) == a.ana.latency.maxReg.sec / W32 % W32
    ensures ReadMux(a, d, 0xA4) == a.ana.latency.maxReg.sec % W32
    ensures ReadMux(a, d, 0xA8) == a.ana.latency.maxReg.nsec % W32
    ensures ReadMux(a, d, 0xB0) == a.ana.latency.lastReg.sec / W32 % W32
    ensures ReadMux(a, d, 0xB4) == a.ana.latency.lastReg.sec % W32
    ensures ReadMux(a, d, 0xB8) == a.ana.latency.lastReg.nsec % W32
    ensures ReadMux(a, d, 0xC0) == a.ana.published.counters.errorExpected / W32 % W32
    ensures ReadMux(a, d, 0xC4) == a.ana.published.counters.errorExpected % W32
    ensures ReadMux(a, d, 0xC8) == a.ana.published.counters.errorReceived / W32 % W32
    ensures ReadMux(a, d, 0xCC) == a.ana.published.counters.errorReceived % W32
    ensures ReadMux(a, d, 0xD0) == a.ana.published.counters.errorTime.sec / W32 % W32
    ensures ReadMux(a, d, 0xD4) == a.ana.published.counters.errorTime.sec % W32
    ensures ReadMux(a, d, 0xD8) == a.ana.published.counters.errorTime.nsec % W32
  {
    MuxOfWide(a, d, TimestampSec);
    MuxOfNarrow(a, d, TimestampNsec);
    MuxOfNarrow(a, d, FrameSize);
    MuxOfWide(a, d, LatencyMinSec);
    MuxOfNarrow(a, d, LatencyMinNsec);
    MuxOfWide(a, d, LatencyMaxSec);
    MuxOfNarrow(a, d, LatencyMaxNsec);
    MuxOfWide(a, d, LatencySec);
    MuxOfNarrow(a, d, LatencyNsec);
    MuxOfWide(a, d, ErrorExpected);
    MuxOfWide(a, d, ErrorReceived);
    MuxOfWide(a, d, ErrorSec);
    MuxOfNarrow(a, d, ErrorNsec);
    hide ReadMux;
  }

  lemma OtherAddresses(a: RegisterFile, d: Word)
    ensures ReadMux(a, d, 0x00) == 0x1230_0002 && ReadMux(a, d, 0x04) == 1 && ReadMux(a, d, 0x0C) == a.flip % W32
    ensures ReadMux(a, d, 0x50) == d.b0 * 0x100_0000 + d.b1 * 0x1_0000 + d.b2 * 0x100 + d.b3
  {
  }

  // ---- what the processor sees: one read at a time ----

  /** The value read, and the word of the frame buffer that comes next. */
  datatype Answer = Answer(value: nat, next: Address)

  function ReadOne(a: RegisterFile, next: Address, addr: nat): Answer {
    Answer(ReadMux(a, a.ana.mem[next], addr),
           if addr == FRAME_SIZE then 0 else if addr == FRAME_BUF then (next + 1) % 512 else next)
  }

  function NextAfter(a: RegisterFile, next: Address, asked: seq<nat>): Address {
    if asked == [] then next
    else ReadOne(a, NextAfter(a, next, asked[..|asked| - 1]), asked[|asked| - 1]).next
  }

  function AllReads(a: RegisterFile, next: Address, asked: seq<nat>): (values: seq<nat>)
    ensures |values| == |asked|
  {
    if asked == [] then []
    else
      var front := asked[..|asked| - 1];
      AllReads(a, next, front) + [ReadOne(a, NextAfter(a, next, front), asked[|asked| - 1]).value]
  }

  // ---- what the hardware does: one clock edge at a time ----

  datatype ReadBus = ReadBus(arvalid: bool, araddr: nat, rready: bool)

  datatype ReadEnd = ReadEnd(
    arready: bool, araddr: nat, rvalid: bool, rdata: nat, bufAddress: Address, bufInc: bool, bufData: Word)

  predicate Reads(f: ReadEnd, b: ReadBus) {
    f.arready && b.arvalid && !f.rvalid
  }

  /** A clock edge; `bufData` is the output register of the frame memory. */
  function ReadEndStep(f: ReadEnd, a: RegisterFile, b: ReadBus): ReadEnd {
    var responds := f.rvalid && b.rready;
    ReadEnd(!f.arready && b.arvalid,
            if !f.arready && b.arvalid then b.araddr else f.araddr,
            if Reads(f, b) then true else if responds then false else f.rvalid,
            if Reads(f, b) then ReadMux(a, f.bufData, f.araddr) else f.rdata,
            if Reads(f, b) then (if f.araddr == FRAME_SIZE then 0 else f.bufAddress)
            else if responds && f.bufInc then (f.bufAddress + 1) % 512 else f.bufAddress,
            if Reads(f, b) then
              (if f.araddr == FRAME_SIZE then false else if f.araddr == FRAME_BUF then true else f.bufInc)
            else if responds && f.bufInc then false else f.bufInc,
            a.ana.mem[f.bufAddress])
  }

  class ReadEndDevice {
    var arready: bool
    var araddr: nat
    var rvalid: bool
    var rdata: nat
    var bufAddress: Address
    var bufInc: bool
    const bram: Bram

    constructor (bram: Bram, f: ReadEnd)
      ensures this.bram == bram && Regs() == f.(bufData := bram.oData)
    {
      this.bram := bram;
      arready, araddr, rvalid, rdata := f.arready, f.araddr, f.rvalid, f.rdata;
      bufAddress, bufInc := f.bufAddress, f.bufInc;
    }

    function Regs(): ReadEnd
      reads this, bram
    {
      ReadEnd(arready, araddr, rvalid, rdata, bufAddress, bufInc, bram.oData)
    }

    method Step(a: RegisterFile, b: ReadBus)
      requires bram.mem.Length == 512 && bram.mem[..] == a.ana.mem
      modifies this, bram
      ensures Regs() == ReadEndStep(old(Regs()), a, b)
    {
      hide ReadMux;
      var ready, valid, at := arready, rvalid, bufAddress;
      if ready && b.arvalid && !valid {
        rdata := ReadMux(a, bram.oData, araddr);
        rvalid := true;
        if araddr == FRAME_SIZE {
          bufAddress, bufInc := 0, false;
        } else if araddr == FRAME_BUF {
          bufInc := true;
        }
      } else if valid && b.rready {
        rvalid := false;
        if bufInc {
          bufAddress, bufInc := (bufAddress + 1) % 512, false;
        }
      }
      if !ready && b.arvalid {
        arready, araddr := true, b.araddr;
      } else {
        arready := false;
      }
      bram.ReadPort(false, at);
    }
  }

  // ---- a processor with one read at a time ----

  datatype ReadPhase = Quiet | Asking(addr: nat) | Awaiting

  /** An address once offered stays until it is taken (sections A3.2.1 and A3.3.1 of ARM IHI 0022). */
  predicate MayRead(p: ReadPhase, b: ReadBus) {
    match p
    case Quiet => true
    case Asking(addr) => b.arvalid && b.araddr == addr
    case Awaiting => !b.arvalid
  }

  /** The addresses that were accepted, and the data of the responses that were taken. */
  datatype ReadSession = ReadSession(phase: ReadPhase, asked: seq<nat>, values: seq<nat>)

  function ReadSessionStep(s: ReadSession, f: ReadEnd, b: ReadBus): ReadSession {
    var phase :=
      match s.phase
      case Quiet => if b.arvalid then Asking(b.araddr) else Quiet
      case Asking(addr) => if f.arready then Awaiting else s.phase
      case Awaiting => if f.rvalid && b.rready then Quiet else Awaiting;
    ReadSession(phase,
                if s.phase.Asking? && f.arready then s.asked + [s.phase.addr] else s.asked,
                if f.rvalid && b.rready then s.values + [f.rdata] else s.values)
  }

  ghost predicate ReadInv(f: ReadEnd, a: RegisterFile, s: ReadSession, next: Address) {
    && (f.arready ==> s.phase.Asking? && f.araddr == s.phase.addr && f.bufData == a.ana.mem[f.bufAddress])
    && f.rvalid == s.phase.Awaiting? && (f.bufInc ==> s.phase.Awaiting?)
    && NextAfter(a, next, s.asked) == (if f.bufInc then (f.bufAddress + 1) % 512 else f.bufAddress)
    && AllReads(a, next, s.asked) == s.values + (if s.phase.Awaiting? then [f.rdata] else [])
  }

  /** Nothing is asked for: an address may be offered. */
  lemma QuietStep(f: ReadEnd, a: RegisterFile, s: ReadSession, next: Address, b: ReadBus)
    requires ReadInv(f, a, s, next) && s.phase.Quiet?
    ensures ReadInv(ReadEndStep(f, a, b), a, ReadSessionStep(s, f, b), next)
  {
    hide ReadMux;
    hide AllReads;
    hide NextAfter;
  }

  /** The address is not yet accepted: it is, at this edge. */
  lemma OfferStep(f: ReadEnd, a: RegisterFile, s: ReadSession, next: Address, b: ReadBus)
    requires ReadInv(f, a, s, next) && MayRead(s.phase, b) && s.phase.Asking? && !f.arready
    ensures ReadInv(ReadEndStep(f, a, b), a, ReadSessionStep(s, f, b), next)
  {
    hide ReadMux;
    hide AllReads;
    hide NextAfter;
  }

  /** The address is accepted: the register is read. */
  lemma AcceptStep(f: ReadEnd, a: RegisterFile, s: ReadSession, next: Address, b: ReadBus)
    requires ReadInv(f, a, s, next) && MayRead(s.phase, b) && s.phase.Asking? && f.arready
    ensures ReadInv(ReadEndStep(f, a, b), a, ReadSessionStep(s, f, b), next)
  {
    hide ReadMux;
    OneMoreRead(a, next, s.asked, s.phase.addr);
    assert s.values + [] == s.values;
    hide AllReads;
    hide NextAfter;
  }

  lemma {:induction false} OneMoreRead(a: RegisterFile, next: Address, asked: seq<nat>, addr: nat)
    ensures var answer := ReadOne(a, NextAfter(a, next, asked), addr);
      && NextAfter(a, next, asked + [addr]) == answer.next
      && AllReads(a, next, asked + [addr]) == AllReads(a, next, asked) + [answer.value]
  {
    hide ReadOne;
    assert (asked + [addr])[..|asked|] == asked;
  }

  /** A response is there: it stays until it is taken. */
  lemma RespondStep(f: ReadEnd, a: RegisterFile, s: ReadSession, next: Address, b: ReadBus)
    requires ReadInv(f, a, s, next) && MayRead(s.phase, b) && s.phase.Awaiting?
    ensures ReadInv(ReadEndStep(f, a, b), a, ReadSessionStep(s, f, b), next)
  {
    hide ReadMux;
    hide AllReads;
    hide NextAfter;
    assert s.values + [f.rdata] + [] == s.values + [f.rdata];
  }

  lemma ReadStepInv(f: ReadEnd, a: RegisterFile, s: ReadSession, next: Address, b: ReadBus)
    requires ReadInv(f, a, s, next) && MayRead(s.phase, b)
    ensures ReadInv(ReadEndStep(f, a, b), a, ReadSessionStep(s, f, b), next)
  {
    hide ReadInv;
    hide ReadEndStep;
    hide ReadSessionStep;
    hide MayRead;
    match s.phase {
      case Quiet => QuietStep(f, a, s, next, b);
      case Asking(_) =>
        if f.arready {
          AcceptStep(f, a, s, next, b);
        } else {
          OfferStep(f, a, s, next, b);
        }
      case Awaiting => RespondStep(f, a, s, next, b);
    }
  }

  function ReadEndRun(f: ReadEnd, a: RegisterFile, bs: seq<ReadBus>): ReadEnd {
    if bs == [] then f else ReadEndStep(ReadEndRun(f, a, bs[..|bs| - 1]), a, bs[|bs| - 1])
  }

  function ReadSessionRun(s: ReadSession, f: ReadEnd, a: RegisterFile, bs: seq<ReadBus>): ReadSession {
    if bs == [] then s
    else
      var n := |bs| - 1;
      ReadSessionStep(ReadSessionRun(s, f, a, bs[..n]), ReadEndRun(f, a, bs[..n]), bs[n])
  }

  ghost predicate LegalReads(s: ReadSession, f: ReadEnd, a: RegisterFile, bs: seq<ReadBus>) {
    bs != [] ==>
      var n := |bs| - 1;
      LegalReads(s, f, a, bs[..n]) && MayRead(ReadSessionRun(s, f, a, bs[..n]).phase, bs[n])
  }

  const NO_READS: ReadSession := ReadSession(Quiet, [], [])

  /** However the processor times its requests and takes its responses, while the registers
    are frozen: every accepted read gets exactly one response, in order, with the value of
    the register, and reads of the frame buffer return its words one after the other. */
  lemma {:induction false} ReadsAreAnswered(f: ReadEnd, a: RegisterFile, bs: seq<ReadBus>)
    requires !f.arready && !f.rvalid && !f.bufInc && LegalReads(NO_READS, f, a, bs)
    ensures ReadInv(ReadEndRun(f, a, bs), a, ReadSessionRun(NO_READS, f, a, bs), f.bufAddress)
    ensures var s := ReadSessionRun(NO_READS, f, a, bs);
      && |s.values| == |s.asked| - (if s.phase.Awaiting? then 1 else 0)
      && s.values == AllReads(a, f.bufAddress, s.asked)[..|s.values|]
  {
    if bs != [] {
      hide ReadEndStep;
      hide ReadSessionStep;
      hide MayRead;
      var n := |bs| - 1;
      ReadsAreAnswered(f, a, bs[..n]);
      ReadStepInv(ReadEndRun(f, a, bs[..n]), a, ReadSessionRun(NO_READS, f, a, bs[..n]), f.bufAddress, bs[n]);
    }
  }

  lemma {:induction false} ReadAt(a: RegisterFile, next: Address, asked: seq<nat>, j: nat)
    requires j < |asked|
    ensures AllReads(a, next, asked)[j] == ReadMux(a, a.ana.mem[NextAfter(a, next, asked[..j])], asked[j])
  {
    hide ReadMux;
    var n := |asked| - 1;
    if j < n {
      ReadAt(a, next, asked[..n], j);
      assert asked[..n][..j] == asked[..j];
    }
  }

  /** A read of any register but the frame buffer returns what `ReadMux` has at that address,
    whatever was read before. */
  lemma {:induction false} ValueOfRead(f: ReadEnd, a: RegisterFile, bs: seq<ReadBus>, j: nat, d: Word)
    requires !f.arready && !f.rvalid && !f.bufInc && LegalReads(NO_READS, f, a, bs)
    ensures var s := ReadSessionRun(NO_READS, f, a, bs);
      |s.values| <= |s.asked| && (j < |s.values| && s.asked[j] != 0x50 ==> s.values[j] == ReadMux(a, d, s.asked[j]))
  {
    hide ReadMux;
    hide AllReads;
    hide LegalReads;
    hide ReadSessionRun;
    var s := ReadSessionRun(NO_READS, f, a, bs);
    ReadsAreAnswered(f, a, bs);
    if j < |s.values| && s.asked[j] != 0x50 {
      ReadAt(a, f.bufAddress, s.asked, j);
      SameAnywhere(a, a.ana.mem[NextAfter(a, f.bufAddress, s.asked[..j])], d, s.asked[j]);
    }
  }

  lemma SameAnywhere(a: RegisterFile, d: Word, e: Word, addr: nat)
    requires addr != 0x50
    ensures ReadMux(a, d, addr) == ReadMux(a, e, addr)
  {
    hide WideAt;
    hide NarrowAt;
  }

  lemma PointerMoves(a: RegisterFile, next: Address)
    ensures ReadOne(a, next, 0x44).next == 0 && ReadOne(a, next, 0x50).next == (next + 1) % 512
  {
    hide ReadMux;
  }

  lemma {:induction false} NextWord(a: RegisterFile, next: Address, asked: seq<nat>, n: nat)
    ensures NextAfter(a, next, asked + [0x44] + seq(n, _ => 0x50)) == n % 512
  {
    hide ReadOne;
    hide NextAfter;
    hide AllReads;
    var list := asked + [0x44] + seq(n, _ => 0x50);
    if n == 0 {
      assert list == asked + [0x44];
      OneMoreRead(a, next, asked, 0x44);
      PointerMoves(a, NextAfter(a, next, asked));
    } else {
      var front := asked + [0x44] + seq(n - 1, _ => 0x50);
      NextWord(a, next, asked, n - 1);
      assert list == front + [0x50];
      OneMoreRead(a, next, front, 0x50);
      PointerMoves(a, NextAfter(a, next, front));
    }
  }

  /** After a read of the frame size, reads of the frame buffer return the words of the frame
    memory one after the other, the first octet of each in the highest bits. */
  lemma {:induction false} BufferInOrder(a: RegisterFile, next: Address, asked: seq<nat>, n: nat, w: nat)
    requires w < n
    ensures var m := a.ana.mem[w % 512];
      AllReads(a, next, asked + [0x44] + seq(n, _ => 0x50))[|asked| + 1 + w]
        == Lane(m, 0) * 0x100_0000 + Lane(m, 1) * 0x1_0000 + Lane(m, 2) * 0x100 + Lane(m, 3)
  {
    var list := asked + [0x44] + seq(n, _ => 0x50);
    ReadAt(a, next, list, |asked| + 1 + w);
    assert list[..|asked| + 1 + w] == asked + [0x44] + seq(w, _ => 0x50);
    NextWord(a, next, asked, w);
    OtherAddresses(a, a.ana.mem[w % 512]);
    hide ReadMux;
    hide AllReads;
  }
}
