/** What the receiver shows after whole runs. */
module ReceiverRuns {
  import opened Arithmetic
  import opened Octets
  import opened FrameCheck
  import opened Gmii
  import opened BramIo
  import opened CrcCheck
  import opened TestframeParser
  import opened TrafficAnalyzer
  import opened Receiver

  function LogRun(l: Log, ins: seq<Input>): Log {
    if ins == [] then l else LogStep(LogRun(l, ins[..|ins| - 1]), ins[|ins| - 1])
  }

  function ReceiverRun(r: Receiver, ins: seq<Input>): Receiver {
    if ins == [] then r else ReceiverStep(ReceiverRun(r, ins[..|ins| - 1]), ins[|ins| - 1])
  }

  ghost predicate Running(ins: seq<Input>) {
    forall k :: 0 <= k < |ins| ==> ins[k].run
  }

  /** In every run the registers show what the log of the line implies. */
  lemma {:induction false} ReceiverRunInv(r: Receiver, base: seq<Shifted>, l: Log, ins: seq<Input>)
    requires ReceiverInv(r, base, l) && Running(ins)
    ensures ReceiverInv(ReceiverRun(r, ins), base, LogRun(l, ins))
  {
    if ins == [] {
    } else {
      var front := ins[..|ins| - 1];
      ReceiverRunInv(r, base, l, front);
      ReceiverStepInv(ReceiverRun(r, front), base, LogRun(l, front), ins[|ins| - 1]);
    }
  }

  /** In every reachable state the three machines are all idle or all in a frame; the two
    recognisers always agree, and are past a preamble exactly when the octets of the frame
    so far begin with 0x55 six or seven times and 0xD5. */
  lemma MachinesInLockStep(r: Receiver, base: seq<Shifted>, l: Log)
    requires ReceiverInv(r, base, l)
    ensures r.check.state == r.parse.state && (r.check.state == 0 <==> r.ana.state == 0)
    ensures r.check.state == 0 <==> l.wire.cur == []
    ensures l.wire.cur != [] ==> (r.check.state == 2 <==> GoodPreamble(l.wire.cur)) && r.check.state in {1, 2, 3}
  {
    hide CountInv;
    hide BufferInv;
    hide LatencyLogInv;
    hide HistoryInv;
    hide IsTestframe;
    hide Preamble;
  }

  function EmptyLog(freeze: bool): Log {
    Log(SILENT, [], Tag(Time(0, 0), false), freeze, 0, 0)
  }

  lemma AnalyzerStarts(a: AnalyzerRegs, i: Input, p: Report, j: Input, q: Report)
    requires !i.run && j.run && !j.line.en
    ensures var b := AnalyzeStep(AnalyzeStep(a, false, i, p), false, j, q);
      && b.run && b.freeze == j.freeze && b.state == 0 && !b.frameComplete && !b.bufWr
      && b.counters == ZERO && b.expected == 0 && b.published == Snapshot(ZERO, Time(0, 0), 0)
      && b.octetsIdle == 0 && b.octetsTotal == 0
      && b.latency == LatencyRegs(Time(0, 1), NO_MINIMUM, Time(0, 0), Time(0, 2), NO_MINIMUM, Time(0, 0), false, false)
  {
    hide Analyze;
    hide Written;
  }

  lemma ParserStarts(r: ParserRegs, c: Cycle, d: Cycle)
    requires !c.en && !d.en
    ensures ParserInv(ParseStep(ParseStep(r, false, c), false, d), SILENT)
  {
  }

  /** Whatever is in the registers: after one idle cycle with `run` low and one more idle
    cycle, the receiver is ready, with all statistics at zero. */
  lemma StartEstablishesInv(r: Receiver, i: Input, j: Input)
    requires !i.line.en && !i.run && !j.line.en && j.run
    ensures var s := ReceiverStep(ReceiverStep(r, i), j);
      ReceiverInv(s, PowerUp(s.check), EmptyLog(j.freeze))
  {
    hide CheckStep;
    hide CheckInv;
    hide ParseStep;
    hide ParserInv;
    hide AnalyzeStep;
    IdleEstablishesInv(r.check, i.line, j.line);
    ParserStarts(r.parse, i.line, j.line);
    AnalyzerStarts(r.ana, i, ReportOf(r), j, ReportOf(ReceiverStep(r, i)));
  }

  /** A reset of the three cores. */
  function ReceiverReset(r: Receiver, i: Input): Receiver {
    Receiver(CheckStep(r.check, true, i.line), ParseStep(r.parse, true, i.line),
             AnalyzeStep(r.ana, true, i, ReportOf(r)))
  }

  lemma ParserResets(r: ParserRegs, c: Cycle, d: Cycle)
    requires !d.en
    ensures ParserInv(ParseStep(ParseStep(r, true, c), false, d), SILENT)
  {
  }

  lemma AnalyzerResets(a: AnalyzerRegs, i: Input, p: Report, j: Input, q: Report)
    requires i.run && j.run && !j.line.en
    ensures var b := AnalyzeStep(AnalyzeStep(a, true, i, p), false, j, q);
      && b.run && b.freeze == j.freeze && b.state == 0 && !b.frameComplete && !b.bufWr
      && b.counters == ZERO && b.expected == 0 && b.published == Snapshot(ZERO, Time(0, 0), 0)
      && b.octetsIdle == 1 && b.octetsTotal == 1
      && b.latency == LatencyRegs(Time(0, 1), NO_MINIMUM, Time(0, 0), Time(0, 2), NO_MINIMUM, Time(0, 0), false, false)
  {
    hide Written;
  }

  /** A reset at any time does the same: the receiver is ready one idle cycle later, which is
    the first that it counts. */
  lemma ResetEstablishesInv(r: Receiver, i: Input, j: Input)
    requires i.run && !j.line.en && j.run
    ensures var s := ReceiverStep(ReceiverReset(r, i), j);
      ReceiverInv(s, PowerUp(s.check), EmptyLog(j.freeze).(idle := 1, total := 1))
  {
    hide CheckStep;
    hide CheckInv;
    hide ParseStep;
    hide ParserInv;
    hide AnalyzeStep;
    CrcCheck.ResetEstablishesInv(r.check, i.line, j.line);
    ParserResets(r.parse, i.line, j.line);
    AnalyzerResets(r.ana, i, ReportOf(r), j, ReportOf(ReceiverReset(r, i)));
  }

  // ---- what the statistics count ----

  datatype Kind = Good | BadCrc | BadPreamble

  function KindOf(base: seq<Shifted>, frames: seq<seq<Octet>>): Kind
    requires |base| >= 4 && frames != []
  {
    if !GoodPreamble(frames[|frames| - 1]) then BadPreamble
    else if Accepted(base, frames) then Good
    else BadCrc
  }

  /** With four data octets or more, a frame is good exactly when its preamble is and its
    data ends with its frame check sequence. */
  lemma KindOfLongFrame(base: seq<Shifted>, frames: seq<seq<Octet>>)
    requires |base| >= 4 && frames != [] && |Data(frames[|frames| - 1])| >= 4
    ensures KindOf(base, frames) == if FcsValid(Data(frames[|frames| - 1])) then Good else BadCrc
  {
    var n := |frames| - 1;
    VerdictIsFcsValid(Shifts(base, frames[..n]), Data(frames[n]));
  }

  /** What a frame of each kind contributes: its data octets, or all its octets when the preamble is bad. */
  function Octets32(f: seq<Octet>, k: Kind): nat {
    (if k == BadPreamble then |f| else |Data(f)|) % W32
  }

  function FramesOfKind(base: seq<Shifted>, frames: seq<seq<Octet>>, k: Kind): nat
    requires |base| >= 4
  {
    if frames == [] then 0
    else FramesOfKind(base, frames[..|frames| - 1], k) + (if KindOf(base, frames) == k then 1 else 0)
  }

  function OctetsOfKind(base: seq<Shifted>, frames: seq<seq<Octet>>, k: Kind): nat
    requires |base| >= 4
  {
    if frames == [] then 0
    else
      OctetsOfKind(base, frames[..|frames| - 1], k)
      + (if KindOf(base, frames) == k then Octets32(frames[|frames| - 1], k) else 0)
  }

  /** The sequence numbers of the accepted test frames, in order. */
  ghost function TestNumbers(base: seq<Shifted>, frames: seq<seq<Octet>>): seq<nat>
    requires |base| >= 4
  {
    if frames == [] then []
    else
      TestNumbers(base, frames[..|frames| - 1])
      + (if Timed(base, frames) then [ReportOn(base, frames).sequenceNum] else [])
  }

  /** The 32-bit number expected after the given ones. */
  function ExpectedAfter(ns: seq<nat>): nat {
    if ns == [] then 0 else (ns[|ns| - 1] + 1) % W32
  }

  /** How many of the numbers were not the expected ones. */
  function SequenceErrors(ns: seq<nat>): (e: nat)
    ensures e <= |ns|
  {
    if ns == [] then 0
    else
      var front := ns[..|ns| - 1];
      SequenceErrors(front) + (if ns[|ns| - 1] != ExpectedAfter(front) then 1 else 0)
  }

  function PktsOf(c: Counters, k: Kind): nat {
    match k
    case Good => c.pkts
    case BadCrc => c.badCrcPkts
    case BadPreamble => c.badPreamblePkts
  }

  function OctetsOf(c: Counters, k: Kind): nat {
    match k
    case Good => c.octets
    case BadCrc => c.badCrcOctets
    case BadPreamble => c.badPreambleOctets
  }

  ghost predicate CountedKind(c: Counters, base: seq<Shifted>, frames: seq<seq<Octet>>, k: Kind)
    requires |base| >= 4
  {
    && PktsOf(c, k) == FramesOfKind(base, frames, k) % W64
    && OctetsOf(c, k) == OctetsOfKind(base, frames, k) % W64
  }

  ghost predicate CountedTestframes(b: Book, base: seq<Shifted>, frames: seq<seq<Octet>>)
    requires |base| >= 4
  {
    var ns := TestNumbers(base, frames);
    && b.counters.testframePkts == |ns| % W64
    && b.counters.sequenceErrors == SequenceErrors(ns) % W64
    && b.expected == ExpectedAfter(ns)
  }

  /** The counters count the frames of each kind and their octets, the test frames, and
    the test frames whose number is not the one after the number before. */
  lemma {:induction false} TallyCounts(base: seq<Shifted>, frames: seq<seq<Octet>>, tags: seq<Tag>, k: Kind)
    requires |base| >= 4 && |frames| == |tags|
    ensures CountedKind(Tally(base, frames, tags).counters, base, frames, k)
    ensures CountedTestframes(Tally(base, frames, tags), base, frames)
    decreases |frames|
  {
    if frames != [] {
      var n := |frames| - 1;
      var b := Tally(base, frames[..n], tags[..n]);
      TallyCounts(base, frames[..n], tags[..n], k);
      CountOneKind(b, base, frames, tags[n].stamp, k);
      CountOneTestframe(b, base, frames, tags[n].stamp);
    }
  }

  ghost function AccountLast(b: Book, base: seq<Shifted>, frames: seq<seq<Octet>>, stamp: Time): Book
    requires |base| >= 4 && frames != []
  {
    var f := frames[|frames| - 1];
    Account(b, ReportOn(base, frames), |f| % W32, |Data(f)| % W32, stamp)
  }

  function KindReported(q: Report): Kind {
    if !q.preambleOk then BadPreamble else if q.crcOk then Good else BadCrc
  }

  /** One frame changes the counters of its kind only. */
  lemma AccountOneKind(b: Book, q: Report, frameSize: nat, l2FrameSize: nat, stamp: Time, k: Kind)
    ensures
      var c := Account(b, q, frameSize, l2FrameSize, stamp).counters;
      if KindReported(q) == k then
        && PktsOf(c, k) == Add64(PktsOf(b.counters, k), 1)
        && OctetsOf(c, k) == Add64(OctetsOf(b.counters, k), if k == BadPreamble then frameSize else l2FrameSize)
      else
        PktsOf(c, k) == PktsOf(b.counters, k) && OctetsOf(c, k) == OctetsOf(b.counters, k)
  {
    hide Add64;
  }

  lemma KindIsReported(base: seq<Shifted>, frames: seq<seq<Octet>>)
    requires |base| >= 4 && frames != []
    ensures KindReported(ReportOn(base, frames)) == KindOf(base, frames)
  {
  }

  lemma CountOneKind(b: Book, base: seq<Shifted>, frames: seq<seq<Octet>>, stamp: Time, k: Kind)
    requires |base| >= 4 && frames != []
    requires CountedKind(b.counters, base, frames[..|frames| - 1], k)
    ensures CountedKind(AccountLast(b, base, frames, stamp).counters, base, frames, k)
  {
    hide Account;
    hide ReportOn;
    hide KindReported;
    hide KindOf;
    hide Data;
    hide PktsOf;
    hide OctetsOf;
    hide Add64;
    var front, f := frames[..|frames| - 1], frames[|frames| - 1];
    KindIsReported(base, frames);
    AccountOneKind(b, ReportOn(base, frames), |f| % W32, |Data(f)| % W32, stamp, k);
    if KindOf(base, frames) == k {
      Add64Wraps(FramesOfKind(base, front, k), 1);
      Add64Wraps(OctetsOfKind(base, front, k), Octets32(f, k));
    }
  }

  lemma AccountTestframe(b: Book, q: Report, frameSize: nat, l2FrameSize: nat, stamp: Time)
    requires q.crcOk ==> q.preambleOk
    ensures
      var b' := Account(b, q, frameSize, l2FrameSize, stamp);
      var c, c' := b.counters, b'.counters;
      if q.crcOk && q.testframe then
        && c'.testframePkts == Add64(c.testframePkts, 1)
        && c'.sequenceErrors == (if q.sequenceNum != b.expected then Add64(c.sequenceErrors, 1) else c.sequenceErrors)
        && b'.expected == (q.sequenceNum + 1) % W32
      else
        c'.testframePkts == c.testframePkts && c'.sequenceErrors == c.sequenceErrors && b'.expected == b.expected
  {
    hide Add64;
  }

  lemma {:induction false} OneMoreNumber(ns: seq<nat>, n: nat)
    ensures SequenceErrors(ns + [n]) == SequenceErrors(ns) + (if n != ExpectedAfter(ns) then 1 else 0)
    ensures ExpectedAfter(ns + [n]) == (n + 1) % W32
  {
    assert (ns + [n])[..|ns|] == ns;
  }

  lemma {:induction false} TestNumbersLast(base: seq<Shifted>, frames: seq<seq<Octet>>)
    requires |base| >= 4 && frames != []
    ensures
      var q, ns := ReportOn(base, frames), TestNumbers(base, frames[..|frames| - 1]);
      && (q.crcOk ==> q.preambleOk)
      && TestNumbers(base, frames) == if q.crcOk && q.testframe then ns + [q.sequenceNum] else ns
  {
  }

  lemma CountOneTestframe(b: Book, base: seq<Shifted>, frames: seq<seq<Octet>>, stamp: Time)
    requires |base| >= 4 && frames != []
    requires CountedTestframes(b, base, frames[..|frames| - 1])
    ensures CountedTestframes(AccountLast(b, base, frames, stamp), base, frames)
  {
    hide Account;
    hide Timed;
    hide ReportOn;
    hide Data;
    hide Add64;
    hide ExpectedAfter;
    var f, ns := frames[|frames| - 1], TestNumbers(base, frames[..|frames| - 1]);
    var q := ReportOn(base, frames);
    TestNumbersLast(base, frames);
    AccountTestframe(b, q, |f| % W32, |Data(f)| % W32, stamp);
    if q.crcOk && q.testframe {
      OneMoreNumber(ns, q.sequenceNum);
      Add64Wraps(|ns|, 1);
      Add64Wraps(SequenceErrors(ns), 1);
    }
  }

  /** Counter by counter. */
  lemma {:induction false} CountersByKind(base: seq<Shifted>, frames: seq<seq<Octet>>, tags: seq<Tag>)
    requires |base| >= 4 && |frames| == |tags|
    ensures var c := Tally(base, frames, tags).counters;
      && c.pkts == FramesOfKind(base, frames, Good) % W64
      && c.octets == OctetsOfKind(base, frames, Good) % W64
      && c.badCrcPkts == FramesOfKind(base, frames, BadCrc) % W64
      && c.badCrcOctets == OctetsOfKind(base, frames, BadCrc) % W64
      && c.badPreamblePkts == FramesOfKind(base, frames, BadPreamble) % W64
      && c.badPreambleOctets == OctetsOfKind(base, frames, BadPreamble) % W64
  {
    TallyCounts(base, frames, tags, Good);
    TallyCounts(base, frames, tags, BadCrc);
    TallyCounts(base, frames, tags, BadPreamble);
    hide Tally;
    hide FramesOfKind;
    hide OctetsOfKind;
    hide CountedTestframes;
  }
}
