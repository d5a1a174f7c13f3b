/** The traffic analyzer
  (lib/hw/lsi/cores/traffic_analyzer_gmii/hdl/traffic_analyzer_gmii.v). */
module TrafficAnalyzer {
  import opened Arithmetic
  import opened Octets
  import opened Gmii
  import opened BramIo

  // ---- registers ----

  /** The 64-bit statistics, with what is known of the last sequence error. */
  datatype Counters = Counters(
    pkts: nat, octets: nat, badCrcPkts: nat, badCrcOctets: nat,
    badPreamblePkts: nat, badPreambleOctets: nat, testframePkts: nat, sequenceErrors: nat,
    errorExpected: nat, errorReceived: nat, errorTime: Time)

  const ZERO: Counters := Counters(0, 0, 0, 0, 0, 0, 0, 0, 0, 0, Time(0, 0))

  /** The `_reg` copies the processor reads. */
  datatype Snapshot = Snapshot(counters: Counters, timestamp: Time, frameSize: nat)

  /** The latency pipeline and its `_reg` copies. */
  datatype LatencyRegs = LatencyRegs(
    last: Time, min: Time, max: Time, lastReg: Time, minReg: Time, maxReg: Time,
    update: bool, updateRegs: bool)

  datatype AnalyzerRegs = AnalyzerRegs(
    run: bool, freeze: bool, state: nat, freezeSync: bool, frameComplete: bool,
    frameSize: nat, l2FrameSize: nat, timestamp: Time, data: Octet, expected: nat,
    counters: Counters, published: Snapshot,
    octetsIdle: nat, octetsTotal: nat, octetsIdleReg: nat, octetsTotalReg: nat,
    bufWr: bool, bufAddress: Address, bufData: Word, mem: Memory, latency: LatencyRegs)

  /** What the checker and the parser report. */
  datatype Report = Report(crcOk: bool, preambleOk: bool, testframe: bool, sequenceNum: nat, sent: Time)

  /** What comes in at a clock edge. */
  datatype Input = Input(line: Cycle, now: Time, run: bool, freeze: bool)

  // ---- statistics ----

  function Add64(a: nat, b: nat): nat {
    (a + b) % W64
  }

  datatype Book = Book(counters: Counters, expected: nat)

  /** What one completed frame does to the statistics. */
  function Account(b: Book, p: Report, frameSize: nat, l2FrameSize: nat, stamp: Time): Book {
    var c := b.counters;
    if !p.preambleOk then
      Book(c.(badPreambleOctets := Add64(c.badPreambleOctets, frameSize),
              badPreamblePkts := Add64(c.badPreamblePkts, 1)), b.expected)
    else if p.crcOk then
      var d := c.(octets := Add64(c.octets, l2FrameSize), pkts := Add64(c.pkts, 1));
      if p.testframe then
        var e := d.(testframePkts := Add64(d.testframePkts, 1));
        Book(if p.sequenceNum != b.expected then
               e.(sequenceErrors := Add64(e.sequenceErrors, 1), errorExpected := b.expected,
                  errorReceived := p.sequenceNum, errorTime := stamp)
             else e,
             (p.sequenceNum + 1) % W32)
      else Book(d, b.expected)
    else
      Book(c.(badCrcOctets := Add64(c.badCrcOctets, l2FrameSize), badCrcPkts := Add64(c.badCrcPkts, 1)), b.expected)
  }

  /** `timestamp - timestamp_tx`, in registers of 48 and 32 bits. */
  function Latency(received: Time, sent: Time): Time {
    if received.nsec < sent.nsec then
      Time((received.sec - sent.sec - 1) % W48, (BILLION - sent.nsec + received.nsec) % W32)
    else
      Time((received.sec - sent.sec) % W48, (received.nsec - sent.nsec) % W32)
  }

  /** `{sec[47:0], nsec[29:0]}` */
  function Key(t: Time): nat {
    t.sec % W48 * W30 + t.nsec % W30
  }

  function Larger(a: Time, b: Time): Time {
    if Key(a) > Key(b) then a else b
  }

  function Smaller(a: Time, b: Time): Time {
    if Key(a) < Key(b) then a else b
  }

  const NO_MINIMUM: Time := Time(0xFFFF_FFFF_FFFF, 0xFFFF_FFFF)

  // ---- one clock edge ----

  function LatencyStep(a: AnalyzerRegs, reset: bool, p: Report): LatencyRegs {
    var r := a.latency;
    if reset || !a.run then
      LatencyRegs(Time(0, 1), NO_MINIMUM, Time(0, 0), Time(0, 2), NO_MINIMUM, Time(0, 0), false, false)
    else if a.state == 0 && a.frameComplete && p.crcOk && p.testframe then
      r.(update := true, updateRegs := if !a.freezeSync then true else r.updateRegs,
         last := Latency(a.timestamp, p.sent))
    else
      var s := if r.update then r.(max := Larger(r.last, r.max), min := Smaller(r.last, r.min), update := false) else r;
      if r.updateRegs then
        s.(lastReg := r.last, maxReg := Larger(r.last, r.max), minReg := Smaller(r.last, r.min), updateRegs := false)
      else s
  }

  function AnalyzeIdle(a: AnalyzerRegs, i: Input, p: Report): AnalyzerRegs {
    var b := if i.line.en then
               a.(timestamp := i.now, data := i.line.d, frameSize := 0, l2FrameSize := 0, state := 1,
                  freezeSync := a.freeze)
             else a;
    if a.frameComplete then
      var book := Account(Book(a.counters, a.expected), p, a.frameSize, a.l2FrameSize, a.timestamp);
      b.(frameComplete := false, bufWr := false, bufAddress := 0,
         counters := book.counters, expected := book.expected,
         published := if !a.freezeSync then Snapshot(book.counters, a.timestamp, a.frameSize) else a.published)
    else b
  }

  function AnalyzeFrame(a: AnalyzerRegs, i: Input, p: Report): AnalyzerRegs {
    var b := a.(frameSize := (a.frameSize + 1) % W32,
                l2FrameSize := if p.preambleOk && i.line.en then (a.l2FrameSize + 1) % W32 else a.l2FrameSize,
                bufData := WithLane(a.bufData, a.frameSize % 4, a.data),
                bufAddress := a.frameSize / 4 % 512,
                bufWr := !a.freezeSync);
    if !i.line.en then b.(state := 0, frameComplete := true) else b.(data := i.line.d)
  }

  function Cleared(a: AnalyzerRegs): AnalyzerRegs {
    a.(state := 0, frameSize := 0, l2FrameSize := 0, counters := ZERO, expected := 0,
       octetsIdle := 0, octetsTotal := 0, octetsIdleReg := 0, octetsTotalReg := 0,
       frameComplete := false, bufWr := false, bufAddress := 0, freezeSync := false,
       published := Snapshot(ZERO, Time(0, 0), 0))
  }

  function CountCycle(a: AnalyzerRegs, freeze: bool, en: bool): AnalyzerRegs {
    a.(octetsIdle := if en then a.octetsIdle else Add64(a.octetsIdle, 1),
       octetsTotal := Add64(a.octetsTotal, 1),
       octetsIdleReg := if freeze then a.octetsIdleReg else a.octetsIdle,
       octetsTotalReg := if freeze then a.octetsTotalReg else a.octetsTotal)
  }

  function Analyze(a: AnalyzerRegs, i: Input, p: Report): AnalyzerRegs {
    CountCycle(if a.state == 0 then AnalyzeIdle(a, i, p) else if a.state == 1 then AnalyzeFrame(a, i, p) else a,
               a.freeze, i.line.en)
  }

  /** One clock edge of the analyzer. */
  function AnalyzeStep(a: AnalyzerRegs, reset: bool, i: Input, p: Report): AnalyzerRegs {
    var b := if reset || !a.run then Cleared(a) else Analyze(a, i, p);
    b.(run := i.run, freeze := i.freeze, latency := LatencyStep(a, reset, p),
       mem := Written(a.mem, a.bufWr, a.bufAddress, a.bufData))
  }

  // ---- the analyzer as a device ----

  // The registers of the device in groups of those that are written together.
  datatype Control = Control(run: bool, freeze: bool, state: nat, freezeSync: bool, frameComplete: bool)
  datatype Arrival = Arrival(frameSize: nat, l2FrameSize: nat, timestamp: Time, data: Octet)
  datatype Cycles = Cycles(idle: nat, total: nat, idleReg: nat, totalReg: nat)
  datatype Port = Port(wr: bool, address: Address, data: Word)

  class Analyzer {
    var control: Control
    var arrival: Arrival
    var expected: nat
    var counters: Counters
    var published: Snapshot
    var cycles: Cycles
    var port: Port
    var latency: LatencyRegs
    const bram: Bram

    /** Registers power up with whatever is in them. */
    constructor (bram: Bram, a: AnalyzerRegs)
      requires bram.mem.Length == 512
      ensures this.bram == bram && Valid() && Regs() == a.(mem := bram.mem[..])
    {
      this.bram := bram;
      control := Control(a.run, a.freeze, a.state, a.freezeSync, a.frameComplete);
      arrival := Arrival(a.frameSize, a.l2FrameSize, a.timestamp, a.data);
      expected, counters, published := a.expected, a.counters, a.published;
      cycles := Cycles(a.octetsIdle, a.octetsTotal, a.octetsIdleReg, a.octetsTotalReg);
      port, latency := Port(a.bufWr, a.bufAddress, a.bufData), a.latency;
    }

    ghost predicate Valid() {
      bram.mem.Length == 512
    }

    function Regs(): AnalyzerRegs
      requires Valid()
      reads this, bram.mem
    {
      AnalyzerRegs(control.run, control.freeze, control.state, control.freezeSync, control.frameComplete,
                   arrival.frameSize, arrival.l2FrameSize, arrival.timestamp, arrival.data, expected,
                   counters, published, cycles.idle, cycles.total, cycles.idleReg, cycles.totalReg,
                   port.wr, port.address, port.data, bram.mem[..], latency)
    }

    /** The statistics of a frame that has just ended, as the deltas of the source. */
    method AccountFrame(p: Report)
      modifies this`counters, this`expected, this`published
      ensures
        var book := Account(Book(old(counters), old(expected)), p,
                            arrival.frameSize, arrival.l2FrameSize, arrival.timestamp);
        && counters == book.counters && expected == book.expected
        && published ==
             if !control.freezeSync then Snapshot(book.counters, arrival.timestamp, arrival.frameSize)
             else old(published)
    {
      var octetsDelta, pktsDelta, badCrcOctetsDelta, badCrcPktsDelta := 0, 0, 0, 0;
      var badPreambleOctetsDelta, badPreamblePktsDelta, testframePktsDelta, sequenceErrorsDelta := 0, 0, 0, 0;
      var c := counters;
      if !p.preambleOk {
        badPreambleOctetsDelta := arrival.frameSize;
        badPreamblePktsDelta := 1;
      } else if p.crcOk {
        octetsDelta := arrival.l2FrameSize;
        pktsDelta := 1;
        if p.testframe {
          testframePktsDelta := 1;
          if p.sequenceNum != expected {
            sequenceErrorsDelta := 1;
            c := c.(errorExpected := expected, errorReceived := p.sequenceNum, errorTime := arrival.timestamp);
          }
          expected := (p.sequenceNum + 1) % W32;
        }
      } else {
        badCrcOctetsDelta := arrival.l2FrameSize;
        badCrcPktsDelta := 1;
      }
      if pktsDelta == 1 { c := c.(pkts := Add64(c.pkts, 1), octets := Add64(c.octets, octetsDelta)); }
      if badCrcPktsDelta == 1 {
        c := c.(badCrcPkts := Add64(c.badCrcPkts, 1), badCrcOctets := Add64(c.badCrcOctets, badCrcOctetsDelta));
      }
      if badPreamblePktsDelta == 1 {
        c := c.(badPreamblePkts := Add64(c.badPreamblePkts, 1),
                badPreambleOctets := Add64(c.badPreambleOctets, badPreambleOctetsDelta));
      }
      if testframePktsDelta == 1 { c := c.(testframePkts := Add64(c.testframePkts, 1)); }
      if sequenceErrorsDelta == 1 { c := c.(sequenceErrors := Add64(c.sequenceErrors, 1)); }
      counters := c;
      if !control.freezeSync {
        published := Snapshot(c, arrival.timestamp, arrival.frameSize);
      }
    }

    method StepIdle(i: Input, p: Report)
      requires Valid()
      modifies this`control, this`arrival, this`expected, this`counters, this`published, this`port
      ensures Regs() == AnalyzeIdle(old(Regs()), i, p)
    {
      hide Account;
      if control.frameComplete {
        AccountFrame(p);
        control := control.(frameComplete := false);
        port := port.(wr := false, address := 0);
      }
      if i.line.en {
        arrival := Arrival(0, 0, i.now, i.line.d);
        control := control.(state := 1, freezeSync := control.freeze);
      }
    }

    method StepFrame(i: Input, p: Report)
      requires Valid()
      modifies this`control, this`arrival, this`port
      ensures Regs() == AnalyzeFrame(old(Regs()), i, p)
    {
      hide WithLane;
      port := Port(!control.freezeSync, arrival.frameSize / 4 % 512,
                   WithLane(port.data, arrival.frameSize % 4, arrival.data));
      arrival := arrival.(frameSize := (arrival.frameSize + 1) % W32);
      if p.preambleOk && i.line.en {
        arrival := arrival.(l2FrameSize := (arrival.l2FrameSize + 1) % W32);
      }
      if !i.line.en {
        control := control.(state := 0, frameComplete := true);
      } else {
        arrival := arrival.(data := i.line.d);
      }
    }

    method Clear()
      requires Valid()
      modifies this
      ensures Regs() == Cleared(old(Regs()))
    {
      control := control.(state := 0, frameComplete := false, freezeSync := false);
      arrival := arrival.(frameSize := 0, l2FrameSize := 0);
      counters, expected := ZERO, 0;
      cycles := Cycles(0, 0, 0, 0);
      port := port.(wr := false, address := 0);
      published := Snapshot(ZERO, Time(0, 0), 0);
    }

    /** The latency process of the source. */
    method StepLatency(reset: bool, p: Report)
      requires Valid()
      modifies this`latency
      ensures latency == LatencyStep(old(Regs()), reset, p)
    {
      hide Latency;
      hide Larger;
      hide Smaller;
      var r := latency;
      if reset || !control.run {
        latency := LatencyRegs(Time(0, 1), NO_MINIMUM, Time(0, 0), Time(0, 2), NO_MINIMUM, Time(0, 0), false, false);
      } else if control.state == 0 && control.frameComplete && p.crcOk && p.testframe {
        latency := latency.(update := true, last := Latency(arrival.timestamp, p.sent));
        if !control.freezeSync {
          latency := latency.(updateRegs := true);
        }
      } else {
        if r.update {
          latency := latency.(max := Larger(r.last, r.max), min := Smaller(r.last, r.min), update := false);
        }
        if r.updateRegs {
          latency := latency.(lastReg := r.last, maxReg := Larger(r.last, r.max), minReg := Smaller(r.last, r.min),
                              updateRegs := false);
        }
      }
    }

    /** The cycle counters and their copies. */
    method Count(frozen: bool, en: bool)
      requires Valid()
      modifies this`cycles
      ensures Regs() == CountCycle(old(Regs()), frozen, en)
    {
      hide Add64;
      var idle, total := cycles.idle, cycles.total;
      if !en {
        cycles := cycles.(idle := Add64(idle, 1));
      }
      cycles := cycles.(total := Add64(total, 1));
      if !frozen {
        cycles := cycles.(idleReg := idle, totalReg := total);
      }
    }

    method Advance(i: Input, p: Report)
      requires Valid()
      modifies this
      ensures Regs() == Analyze(old(Regs()), i, p)
    {
      hide AnalyzeIdle;
      hide AnalyzeFrame;
      hide CountCycle;
      var frozen := control.freeze;
      if control.state == 0 {
        StepIdle(i, p);
      } else if control.state == 1 {
        StepFrame(i, p);
      }
      Count(frozen, i.line.en);
    }

    method Step(reset: bool, i: Input, p: Report)
      requires Valid()
      modifies this, bram.mem
      ensures Regs() == AnalyzeStep(old(Regs()), reset, i, p)
    {
      hide Analyze;
      hide Cleared;
      hide LatencyStep;
      var before, write := latency, port;
      StepLatency(reset, p);
      var after := latency;
      latency := before;
      if reset || !control.run {
        Clear();
      } else {
        Advance(i, p);
      }
      latency := after;
      control := control.(run := i.run, freeze := i.freeze);
      bram.WritePort(write.wr, write.address, write.data);
    }
  }
}
