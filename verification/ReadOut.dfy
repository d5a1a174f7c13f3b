/** Reading out the analyzer
  (lib/sw/lsi/cores/traffic-analyzer-gmii/traffic-analyzer-gmii.c). */
module ReadOut {
  import opened Arithmetic
  import opened Octets
  import opened Gmii
  import opened BramIo
  import opened CrcCheck
  import opened TrafficAnalyzer
  import opened Receiver
  import opened ReceiverRuns
  import opened FreezeCapture
  import opened GeneratorStream
  import opened GeneratorRuns
  import opened RtClock
  import opened TesterLoop
  import opened TesterRuns
  import opened FilteredStream
  import opened ArrivalLog
  import opened EndToEnd
  import opened Hexstr
  import opened AxiRead

  /** `ioreg_read` while the registers keep still: one read transaction. That they do while
    frames go on arriving, and that the bus then returns the values of this port, is
    `LiveReadOut.ReadsAreOfOneState`. */
  class FrozenPort {
    const regs: RegisterFile
    var next: Address
    ghost const start: Address
    ghost var asked: seq<nat>
    ghost var values: seq<nat>

    constructor (regs: RegisterFile, next: Address)
      ensures Valid() && this.regs == regs && this.next == start == next && asked == []
    {
      this.regs, this.next, start, asked, values := regs, next, next, [], [];
    }

    /** The values so far are those of `AxiRead.ReadsAreAnswered`. */
    ghost predicate Valid()
      reads this
    {
      next == NextAfter(regs, start, asked) && values == AllReads(regs, start, asked)
    }

    method Read(addr: nat) returns (v: nat)
      requires Valid()
      modifies this
      ensures Valid() && asked == old(asked) + [addr] && values == old(values) + [v]
      ensures Answer(v, next) == ReadOne(regs, old(next), addr)
    {
      var answer := ReadOne(regs, next, addr);
      v, next := answer.value, answer.next;
      asked, values := asked + [addr], values + [v];
    }
  }

  method ReadWide(port: FrozenPort, w: Wide) returns (v: nat)
    requires port.Valid()
    modifies port
    ensures port.Valid() && port.asked == old(port.asked) + [WideAddress(w), WideAddress(w) + 4]
    ensures port.next == old(port.next) && v == WideValue(port.regs.ana, w) % W64
  {
    hide WideValue;
    hide NarrowValue;
    hide Bits32Of;
    var msb := port.Read(WideAddress(w));
    var lsb := port.Read(WideAddress(w) + 4);
    v := msb * W32 + lsb;
    Halves(WideValue(port.regs.ana, w));
  }

  method ReadNarrow(port: FrozenPort, n: Narrow) returns (v: nat)
    requires port.Valid()
    modifies port
    ensures port.Valid() && port.asked == old(port.asked) + [NarrowAddress(n)]
    ensures port.next == (if n == FrameSize then 0 else old(port.next))
    ensures v == NarrowValue(port.regs.ana, n) % W32
  {
    hide WideValue;
    hide NarrowValue;
    hide Bits32Of;
    v := port.Read(NarrowAddress(n));
  }

  datatype Statistics = Statistics(
    pkts: nat, octets: nat, octetsIdle: nat, badCrcOctets: nat, badCrcPkts: nat,
    badPreambleOctets: nat, badPreamblePkts: nat,
    octetsTotal: nat, testframePkts: nat, sequenceErrors: nat, latencyMin: Time, latencyMax: Time, latency: Time,
    timestamp: Time, frameSize: nat, errorExpected: nat, errorReceived: nat, errorTime: Time)

  function Wide64(a: AnalyzerRegs, w: Wide): nat {
    WideValue(a, w) % W64
  }

  function TimeShown(a: AnalyzerRegs, w: Wide, n: Narrow): Time {
    Time(WideValue(a, w) % W64, NarrowValue(a, n) % W32)
  }

  function StatisticsOf(a: AnalyzerRegs): Statistics {
    Statistics(
      Wide64(a, Pkts), Wide64(a, Octets64), Wide64(a, OctetsIdle), Wide64(a, BadCrcOctets), Wide64(a, BadCrcPkts),
      Wide64(a, BadPreambleOctets), Wide64(a, BadPreamblePkts), Wide64(a, OctetsTotal), Wide64(a, TestframePkts),
      Wide64(a, SequenceErrors), TimeShown(a, LatencyMinSec, LatencyMinNsec),
      TimeShown(a, LatencyMaxSec, LatencyMaxNsec), TimeShown(a, LatencySec, LatencyNsec),
      TimeShown(a, TimestampSec, TimestampNsec), NarrowValue(a, FrameSize) % W32,
      Wide64(a, ErrorExpected), Wide64(a, ErrorReceived), TimeShown(a, ErrorSec, ErrorNsec))
  }

  /** Which register each of the values is. */
  lemma RegistersOf(a: AnalyzerRegs)
    ensures var s, c := StatisticsOf(a), a.published.counters;
      && s.pkts == c.pkts % W64 && s.octets == c.octets % W64
      && s.badCrcPkts == c.badCrcPkts % W64 && s.badCrcOctets == c.badCrcOctets % W64
      && s.badPreamblePkts == c.badPreamblePkts % W64 && s.badPreambleOctets == c.badPreambleOctets % W64
      && s.octetsIdle == a.octetsIdleReg % W64 && s.octetsTotal == a.octetsTotalReg % W64
      && s.testframePkts == c.testframePkts % W64 && s.sequenceErrors == c.sequenceErrors % W64
      && s.errorExpected == c.errorExpected % W64 && s.errorReceived == c.errorReceived % W64
      && s.errorTime == Time(c.errorTime.sec % W64, c.errorTime.nsec % W32)
      && s.latencyMin == Time(a.latency.minReg.sec % W64, a.latency.minReg.nsec % W32)
      && s.latencyMax == Time(a.latency.maxReg.sec % W64, a.latency.maxReg.nsec % W32)
      && s.latency == Time(a.latency.lastReg.sec % W64, a.latency.lastReg.nsec % W32)
      && s.timestamp == Time(a.published.timestamp.sec % W64, a.published.timestamp.nsec % W32)
      && s.frameSize == a.published.frameSize % W32
  {
  }

  method ReadGood(port: FrozenPort) returns (pkts: nat, octets: nat, octetsIdle: nat)
    requires port.Valid()
    modifies port
    ensures port.Valid() && port.next == old(port.next)
    ensures var t := StatisticsOf(port.regs.ana);
      pkts == t.pkts && octets == t.octets && octetsIdle == t.octetsIdle
    ensures port.asked == old(port.asked) + [0x20, 0x24, 0x28, 0x2C, 0x30, 0x34]
  {
    hide WideValue;
    hide NarrowValue;
    hide AllReads;
    hide NextAfter;
    pkts := ReadWide(port, Pkts);
    octets := ReadWide(port, Octets64);
    octetsIdle := ReadWide(port, OctetsIdle);
  }

  method ReadBadCrc(port: FrozenPort) returns (octets: nat, pkts: nat)
    requires port.Valid()
    modifies port
    ensures port.Valid() && port.next == old(port.next)
    ensures var t := StatisticsOf(port.regs.ana); octets == t.badCrcOctets && pkts == t.badCrcPkts
    ensures port.asked == old(port.asked) + [0x60, 0x64, 0x58, 0x5C]
  {
    hide WideValue;
    hide NarrowValue;
    hide AllReads;
    hide NextAfter;
    octets := ReadWide(port, BadCrcOctets);
    pkts := ReadWide(port, BadCrcPkts);
  }

  method ReadBadPreamble(port: FrozenPort) returns (octets: nat, pkts: nat)
    requires port.Valid()
    modifies port
    ensures port.Valid() && port.next == old(port.next)
    ensures var t := StatisticsOf(port.regs.ana); octets == t.badPreambleOctets && pkts == t.badPreamblePkts
    ensures port.asked == old(port.asked) + [0x70, 0x74, 0x68, 0x6C]
  {
    hide WideValue;
    hide NarrowValue;
    hide AllReads;
    hide NextAfter;
    octets := ReadWide(port, BadPreambleOctets);
    pkts := ReadWide(port, BadPreamblePkts);
  }

  method ReadTestframes(port: FrozenPort) returns (octetsTotal: nat, testframePkts: nat, sequenceErrors: nat)
    requires port.Valid()
    modifies port
    ensures port.Valid() && port.next == old(port.next)
    ensures var t := StatisticsOf(port.regs.ana);
      octetsTotal == t.octetsTotal && testframePkts == t.testframePkts && sequenceErrors == t.sequenceErrors
    ensures port.asked == old(port.asked) + [0x78, 0x7C, 0x80, 0x84, 0x88, 0x8C]
  {
    hide WideValue;
    hide NarrowValue;
    hide AllReads;
    hide NextAfter;
    octetsTotal := ReadWide(port, OctetsTotal);
    testframePkts := ReadWide(port, TestframePkts);
    sequenceErrors := ReadWide(port, SequenceErrors);
  }

  method ReadLatencies(port: FrozenPort) returns (min: Time, max: Time, last: Time)
    requires port.Valid()
    modifies port
    ensures port.Valid() && port.next == old(port.next)
    ensures var t := StatisticsOf(port.regs.ana); min == t.latencyMin && max == t.latencyMax && last == t.latency
    ensures port.asked == old(port.asked) + [0x90, 0x94, 0x98, 0xA0, 0xA4, 0xA8, 0xB8, 0xB0, 0xB4]
  {
    hide WideValue;
    hide NarrowValue;
    hide AllReads;
    hide NextAfter;
    var minSec := ReadWide(port, LatencyMinSec);
    var minNsec := ReadNarrow(port, LatencyMinNsec);
    var maxSec := ReadWide(port, LatencyMaxSec);
    var maxNsec := ReadNarrow(port, LatencyMaxNsec);
    var lastNsec := ReadNarrow(port, LatencyNsec);
    var lastSec := ReadWide(port, LatencySec);
    min, max, last := Time(minSec, minNsec), Time(maxSec, maxNsec), Time(lastSec, lastNsec);
  }

  method ReadLastFrame(port: FrozenPort) returns (stamp: Time, frameSize: nat)
    requires port.Valid()
    modifies port
    ensures port.Valid() && port.next == 0
    ensures var t := StatisticsOf(port.regs.ana); stamp == t.timestamp && frameSize == t.frameSize
    ensures port.asked == old(port.asked) + [0x40, 0x38, 0x3C, 0x44]
  {
    hide WideValue;
    hide NarrowValue;
    hide AllReads;
    hide NextAfter;
    var nsec := ReadNarrow(port, TimestampNsec);
    var sec := ReadWide(port, TimestampSec);
    frameSize := ReadNarrow(port, FrameSize);
    stamp := Time(sec, nsec);
  }

  method ReadLastError(port: FrozenPort) returns (expected: nat, received: nat, time: Time)
    requires port.Valid()
    modifies port
    ensures port.Valid() && port.next == old(port.next)
    ensures var t := StatisticsOf(port.regs.ana);
      expected == t.errorExpected && received == t.errorReceived && time == t.errorTime
    ensures port.asked == old(port.asked) + [0xC0, 0xC4, 0xC8, 0xCC, 0xD8, 0xD0, 0xD4]
  {
    hide WideValue;
    hide NarrowValue;
    hide AllReads;
    hide NextAfter;
    expected := ReadWide(port, ErrorExpected);
    received := ReadWide(port, ErrorReceived);
    var nsec := ReadNarrow(port, ErrorNsec);
    var sec := ReadWide(port, ErrorSec);
    time := Time(sec, nsec);
  }

  /** The reads of the program, in its order; that of the frame size also brings the frame
    buffer back to its start, and no later one moves it. */
  method ReadStatistics(port: FrozenPort) returns (s: Statistics)
    requires port.Valid()
    modifies port
    ensures port.Valid() && port.next == 0
    ensures port.asked == old(port.asked)
      + [0x20, 0x24, 0x28, 0x2C, 0x30, 0x34] + [0x60, 0x64, 0x58, 0x5C] + [0x70, 0x74, 0x68, 0x6C]
      + [0x78, 0x7C, 0x80, 0x84, 0x88, 0x8C] + [0x90, 0x94, 0x98, 0xA0, 0xA4, 0xA8, 0xB8, 0xB0, 0xB4]
      + [0x40, 0x38, 0x3C, 0x44]
      + [0xC0, 0xC4, 0xC8, 0xCC, 0xD8, 0xD0, 0xD4]
    ensures s == StatisticsOf(port.regs.ana)
    ensures var a, c := port.regs.ana, port.regs.ana.published.counters;
      && s.pkts == c.pkts % W64 && s.octets == c.octets % W64
      && s.badCrcPkts == c.badCrcPkts % W64 && s.badCrcOctets == c.badCrcOctets % W64
      && s.badPreamblePkts == c.badPreamblePkts % W64 && s.badPreambleOctets == c.badPreambleOctets % W64
      && s.octetsIdle == a.octetsIdleReg % W64 && s.octetsTotal == a.octetsTotalReg % W64
      && s.testframePkts == c.testframePkts % W64 && s.sequenceErrors == c.sequenceErrors % W64
      && s.errorExpected == c.errorExpected % W64 && s.errorReceived == c.errorReceived % W64
      && s.errorTime == Time(c.errorTime.sec % W64, c.errorTime.nsec % W32)
      && s.latencyMin == Time(a.latency.minReg.sec % W64, a.latency.minReg.nsec % W32)
      && s.latencyMax == Time(a.latency.maxReg.sec % W64, a.latency.maxReg.nsec % W32)
      && s.latency == Time(a.latency.lastReg.sec % W64, a.latency.lastReg.nsec % W32)
      && s.timestamp == Time(a.published.timestamp.sec % W64, a.published.timestamp.nsec % W32)
      && s.frameSize == a.published.frameSize % W32
  {
    hide StatisticsOf;
    hide AllReads;
    hide NextAfter;
    var pkts, octets, octetsIdle := ReadGood(port);
    var badCrcOctets, badCrcPkts := ReadBadCrc(port);
    var badPreambleOctets, badPreamblePkts := ReadBadPreamble(port);
    var octetsTotal, testframePkts, sequenceErrors := ReadTestframes(port);
    var min, max, last := ReadLatencies(port);
    var stamp, frameSize := ReadLastFrame(port);
    var expected, received, time := ReadLastError(port);
    s := Statistics(pkts, octets, octetsIdle, badCrcOctets, badCrcPkts, badPreambleOctets, badPreamblePkts, octetsTotal,
                    testframePkts, sequenceErrors, min, max, last, stamp, frameSize, expected, received, time);
    RegistersOf(port.regs.ana);
  }

  // ---- the capture ----

  /** The first n octets of the frame buffer, which is read modulo its 512 words. */
  function BufferOctets(mem: Memory, n: nat): (s: seq<Octet>)
    ensures |s| == n
  {
    seq(n, i requires 0 <= i < n => Lane(mem[i / 4 % 512], i % 4))
  }

  /** Octet i of a 32-bit value, most significant first. */
  function OctetAt(v: nat, i: nat): Octet
    requires i < 4
  {
    (if i == 0 then v / 0x100_0000 else if i == 1 then v / 0x1_0000 else if i == 2 then v / 0x100 else v) % 0x100
  }

  lemma OctetsOfWord(w: Word, i: nat)
    requires i < 4
    ensures OctetAt(Bits32Of(w), i) == Lane(w, i)
  {
    var v := Bits32Of(w);
    assert v / 0x1_0000 == w.b0 * 0x100 + w.b1;
    assert v / 0x100 == w.b0 * 0x1_0000 + w.b1 * 0x100 + w.b2;
  }

  lemma OneMore(mem: Memory, word: nat, i: nat, v: nat)
    requires i < 4 && v == Bits32Of(mem[word % 512])
    ensures BufferOctets(mem, 4 * word + i + 1) == BufferOctets(mem, 4 * word + i) + [OctetAt(v, i)]
  {
    OctetsOfWord(mem[word % 512], i);
    hide Lane;
    hide OctetAt;
    assert (4 * word + i) / 4 == word && (4 * word + i) % 4 == i;
  }

  lemma FourMore(mem: Memory, i: nat, v: nat)
    requires v == Bits32Of(mem[i % 512])
    ensures BufferOctets(mem, 4 * i + 4)
         == BufferOctets(mem, 4 * i) + [OctetAt(v, 0), OctetAt(v, 1), OctetAt(v, 2), OctetAt(v, 3)]
  {
    hide OctetAt;
    hide BufferOctets;
    OneMore(mem, i, 0, v);
    OneMore(mem, i, 1, v);
    OneMore(mem, i, 2, v);
    OneMore(mem, i, 3, v);
    OneByOne(BufferOctets(mem, 4 * i), OctetAt(v, 0), OctetAt(v, 1), OctetAt(v, 2), OctetAt(v, 3));
  }

  lemma OneByOne<T>(s: seq<T>, a: T, b: T, c: T, d: T)
    ensures s + [a] + [b] + [c] + [d] == s + [a, b, c, d]
  {
  }

  lemma ReadFrameBuf(regs: RegisterFile, next: Address)
    ensures ReadOne(regs, next, FRAME_BUF) == Answer(Bits32Of(regs.ana.mem[next]), (next + 1) % 512)
  {
  }

  /** The loop that prints whole words of the captured frame, `%08X` being the digits of four
    octets. */
  method PrintWords(port: FrozenPort, whole: nat) returns (text: string)
    requires port.next == 0
    requires port.Valid()
    modifies port
    ensures port.Valid() && port.next == whole % 512
    ensures text == HexText(BufferOctets(port.regs.ana.mem, 4 * whole))
  {
    hide HexText;
    hide OctetAt;
    hide BufferOctets;
    hide Bits32Of;
    hide ReadOne;
    hide AllReads;
    hide NextAfter;
    var mem := port.regs.ana.mem;
    text := "";
    NothingPrinted(mem);
    for i := 0 to whole
      invariant port.Valid() && port.next == i % 512 && text == HexText(BufferOctets(mem, 4 * i))
    {
      ReadFrameBuf(port.regs, port.next);
      var v := port.Read(FRAME_BUF);
      text := text + HexText([OctetAt(v, 0), OctetAt(v, 1), OctetAt(v, 2), OctetAt(v, 3)]);
      FourPrinted(mem, i, v);
    }
  }

  /** The loop that prints what is left, `%02X` being the digits of one octet. */
  method PrintRest(port: FrozenPort, whole: nat, rest: nat) returns (text: string)
    requires rest < 4 && port.next == whole % 512
    requires port.Valid()
    modifies port
    ensures port.Valid()
    ensures HexText(BufferOctets(port.regs.ana.mem, 4 * whole)) + text
         == HexText(BufferOctets(port.regs.ana.mem, 4 * whole + rest))
  {
    hide HexText;
    hide OctetAt;
    hide BufferOctets;
    hide Bits32Of;
    hide ReadOne;
    hide AllReads;
    hide NextAfter;
    var mem := port.regs.ana.mem;
    ghost var words := HexText(BufferOctets(mem, 4 * whole));
    text := "";
    assert words + "" == words;
    var v := 0;
    for i := 0 to rest
      invariant port.Valid()
      invariant if i == 0 then port.next == whole % 512 else v == Bits32Of(mem[whole % 512])
      invariant words + text == HexText(BufferOctets(mem, 4 * whole + i))
    {
      if i == 0 {
        ReadFrameBuf(port.regs, port.next);
        v := port.Read(FRAME_BUF);
      }
      OnePrinted(mem, whole, i, v);
      assert words + (text + HexText([OctetAt(v, i)])) == words + text + HexText([OctetAt(v, i)]);
      text := text + HexText([OctetAt(v, i)]);
    }
  }

  lemma FourPrinted(mem: Memory, i: nat, v: nat)
    requires v == Bits32Of(mem[i % 512])
    ensures HexText(BufferOctets(mem, 4 * (i + 1)))
         == HexText(BufferOctets(mem, 4 * i)) + HexText([OctetAt(v, 0), OctetAt(v, 1), OctetAt(v, 2), OctetAt(v, 3)])
  {
    hide HexText;
    hide OctetAt;
    hide BufferOctets;
    hide Bits32Of;
    FourMore(mem, i, v);
    TextOfConcat(BufferOctets(mem, 4 * i), [OctetAt(v, 0), OctetAt(v, 1), OctetAt(v, 2), OctetAt(v, 3)]);
  }

  lemma OnePrinted(mem: Memory, word: nat, i: nat, v: nat)
    requires i < 4 && v == Bits32Of(mem[word % 512])
    ensures HexText(BufferOctets(mem, 4 * word + i + 1))
         == HexText(BufferOctets(mem, 4 * word + i)) + HexText([OctetAt(v, i)])
  {
    hide HexText;
    hide OctetAt;
    hide BufferOctets;
    hide Bits32Of;
    OneMore(mem, word, i, v);
    TextOfConcat(BufferOctets(mem, 4 * word + i), [OctetAt(v, i)]);
  }

  /** The captured frame is printed octet by octet. */
  method PrintCapture(port: FrozenPort, frameSize: nat) returns (text: string)
    requires port.next == 0
    requires port.Valid()
    modifies port
    ensures port.Valid()
    ensures text == HexText(BufferOctets(port.regs.ana.mem, frameSize))
  {
    hide HexText;
    hide BufferOctets;
    text := PrintWords(port, frameSize / 4);
    var rest := PrintRest(port, frameSize / 4, frameSize % 4);
    text := text + rest;
    assert 4 * (frameSize / 4) + frameSize % 4 == frameSize;
  }

  lemma NothingPrinted(mem: Memory)
    ensures HexText(BufferOctets(mem, 0)) == ""
  {
  }

  /** Reading out once: freeze, read the statistics, print the capture. */
  method ReadOutOnce(port: FrozenPort) returns (s: Statistics, text: string)
    requires port.Valid()
    modifies port
    ensures port.Valid()
    ensures s == StatisticsOf(port.regs.ana)
    ensures text == HexText(BufferOctets(port.regs.ana.mem, port.regs.ana.published.frameSize % W32))
  {
    s := ReadStatistics(port);
    text := PrintCapture(port, s.frameSize);
  }

  /** `hexstr2bin` makes the octets f from the text. */
  predicate StandsFor(text: string, f: seq<Octet>) {
    IsHex(text[..|text| / 2 * 2]) && Decoded(text) == f
  }

  /** What can be read of frame f: as many octets as it has, of its last 2048. */
  function Shown(f: seq<Octet>): (s: seq<Octet>)
    ensures |s| == |f| % W32
    ensures |f| <= 2048 ==> s == f
  {
    seq(|f| % W32, i requires 0 <= i < |f| % W32 => f[Source(|f|, i)])
  }

  lemma BufferIsShown(mem: Memory, f: seq<Octet>)
    requires Captured(mem, f, |f|)
    ensures BufferOctets(mem, |f| % W32) == Shown(f)
  {
    hide Lane;
    hide Source;
  }

  lemma TextOfCapture(mem: Memory, f: seq<Octet>)
    requires Captured(mem, f, |f|)
    ensures StandsFor(HexText(BufferOctets(mem, |f| % W32)), Shown(f))
  {
    hide Captured;
    hide BufferOctets;
    hide Shown;
    BufferIsShown(mem, f);
    TextRoundTrip(Shown(f));
  }

  /** The printed text is the captured frame, the last one that was not frozen: decoding it
    gives the octets that were on the line, or what a longer frame has left of them. */
  lemma PrintedTextIsFrame(r: Receiver, base: seq<Shifted>, l: Log)
    requires LogInv(l) && ReceiverInv(r, base, l) && !Capturing(l) && LastUnfrozen(l.tags) >= 0
    ensures
      var f := l.wire.done[LastUnfrozen(l.tags)];
      StandsFor(HexText(BufferOctets(r.ana.mem, r.ana.published.frameSize % W32)), Shown(f))
  {
    hide ReceiverInv;
    hide Capturing;
    hide LastUnfrozen;
    hide HexText;
    hide BufferOctets;
    hide Captured;
    hide Shown;
    hide StandsFor;
    hide Tally;
    CaptureIsConsistent(r, base, l);
    TextOfCapture(r.ana.mem, l.wire.done[LastUnfrozen(l.tags)]);
  }

  lemma {:induction false} NumberOfWord(w: Word, s: seq<Octet>)
    requires |s| == 4 && forall j :: 0 <= j < 4 ==> s[j] == Lane(w, j)
    ensures FromBigEndian(s)
         == Lane(w, 0) * 0x100_0000 + Lane(w, 1) * 0x1_0000 + Lane(w, 2) * 0x100 + Lane(w, 3)
  {
    hide Lane;
    assert s[..3][..2] == s[..2] && s[..2][..1] == s[..1] && s[..1][..0] == [];
    assert FromBigEndian(s[..1]) == s[0];
    assert FromBigEndian(s[..2]) == 256 * FromBigEndian(s[..1]) + s[1];
    assert FromBigEndian(s[..3]) == 256 * FromBigEndian(s[..2]) + s[2];
  }

  lemma WordOfCapture(mem: Memory, f: seq<Octet>, w: nat)
    requires Captured(mem, f, |f|) && |f| <= 2048 && 4 * w + 4 <= |f|
    ensures var m := mem[w % 512];
      FromBigEndian(f[4 * w..4 * w + 4])
        == Lane(m, 0) * 0x100_0000 + Lane(m, 1) * 0x1_0000 + Lane(m, 2) * 0x100 + Lane(m, 3)
  {
    hide Lane;
    forall j | 0 <= j < 4
      ensures Lane(mem[w % 512], j) == f[4 * w..4 * w + 4][j]
    {
      assert (4 * w + j) / 4 == w && (4 * w + j) % 4 == j;
    }
    NumberOfWord(mem[w % 512], f[4 * w..4 * w + 4]);
  }

  /** The words that are read from the frame buffer after the frame size are those of the frame,
    its first octet in the highest bits of the first word. */
  lemma {:induction false} WordsReadAreFrame(r: Receiver, base: seq<Shifted>, l: Log, f: seq<Octet>, flip: nat,
                                             next: Address, asked: seq<nat>, n: nat, w: nat)
    requires LogInv(l) && ReceiverInv(r, base, l) && !Capturing(l) && LastUnfrozen(l.tags) >= 0
    requires f == l.wire.done[LastUnfrozen(l.tags)] && |f| <= 2048 && 4 * w + 4 <= |f| && w < n
    ensures AllReads(RegisterFile(r.ana, flip), next, asked + [0x44] + seq(n, _ => 0x50))[|asked| + 1 + w]
         == FromBigEndian(f[4 * w..4 * w + 4])
  {
    hide ReceiverInv;
    hide Capturing;
    hide LastUnfrozen;
    hide Captured;
    hide Tally;
    hide AllReads;
    hide Lane;
    hide FromBigEndian;
    CaptureIsConsistent(r, base, l);
    WordOfCapture(r.ana.mem, f, w);
    BufferInOrder(RegisterFile(r.ana, flip), next, asked, n, w);
  }

  lemma {:induction false} NoneFrozen(tags: seq<Tag>)
    requires tags != [] && !tags[|tags| - 1].frozen
    ensures LastUnfrozen(tags) == |tags| - 1
  {
  }

  lemma LastArrival(l: Log, u: Setup, times: seq<Time>, ks: seq<nat>)
    requires Usable(u.gen) && ks != [] && LoggedFrames(l, u, times, ks) && !l.wire.ended
    ensures LogInv(l) && !Capturing(l) && LastUnfrozen(l.tags) >= 0
    ensures l.wire.done[LastUnfrozen(l.tags)] == FrameOf(u.gen, u.mem, times, ks[|ks| - 1])
  {
    hide Usable;
    hide FrameOf;
    hide LastUnfrozen;
    assert l.tags == ArrivalTags(u, times, ks) && l.wire.done == FramesOf(u, times, ks);
    NoneFrozen(l.tags);
  }

  /** What is printed is frame k of the generator. */
  predicate PrintsFrame(a: AnalyzerRegs, u: Setup, times: seq<Time>, k: int) {
    && Usable(u.gen) && k >= 0
    && StandsFor(HexText(BufferOctets(a.mem, a.published.frameSize % W32)), Shown(FrameOf(u.gen, u.mem, times, k)))
  }

  /** When the tester has sent n frames, the printed text is the last of them that the filter
    has let through. */
  lemma {:induction false} PrintedTextIsLastFrameKept(s: Tester, u: Setup, x: nat, base: seq<Shifted>,
                                                      ins: seq<ClockInput>, n: nat, t: nat)
    requires Start(s, u, x) && ReceiverInv(s.rx, base, EmptyLog(false)) && NoPulses(ins)
    requires 0 < n && t <= |ins| && ArrivalLog.Quiet(u, n, t)
    ensures u.minGap < W32
    ensures PrintsFrame(TesterRun(s, u, ins, t).rx.ana, u, Times(x, u.ratio, |ins|), LastKept(u.gen, Least(u), n))
  {
    hide Usable;
    hide ReceiverInv;
    hide TesterStep;
    hide LogStep;
    hide FrameOf;
    hide StandsFor;
    hide TimeOf;
    hide Arrivals;
    hide Kept;
    hide Shown;
    hide HexText;
    hide BufferOctets;
    hide LoggedFrames;
    hide Capturing;
    hide LogInv;
    hide LastUnfrozen;
    hide Ready;
    hide Ticking;
    var times := Times(x, u.ratio, |ins|);
    var l := LogRun(EmptyLog(false), Arrivals(u, times)[..t]);
    AnalyzerShowsArrivals(s, u, x, base, ins, t);
    LogWhenQuiet(u, times, n, t);
    LastArrival(l, u, times, Arrived(u, n));
    PrintedTextIsFrame(TesterRun(s, u, ins, t).rx, base, l);
  }
}
