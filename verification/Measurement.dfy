/** What the program reads of a measurement: the values of all registers, once n test frames have
  been sent. */
module Measurement {
  import opened Arithmetic
  import opened Octets
  import opened Gmii
  import opened BramIo
  import opened CrcCheck
  import opened TestframeParser
  import opened TrafficAnalyzer
  import opened Receiver
  import opened ReceiverRuns
  import opened Conservation
  import opened LastError
  import opened OneFrame
  import opened FreezeCapture
  import opened GeneratorStream
  import opened GeneratorRuns
  import opened RtClock
  import opened FilterGmii
  import opened TesterLoop
  import opened TesterRuns
  import opened FilteredStream
  import opened ArrivalLog
  import opened Testframes
  import opened EndToEnd
  import opened ReadOut

  // ---- before the first frame ----

  /** Whatever was in the registers: right after the start the program reads zeros, but for the
    latencies, which no frame can have: the greatest as minimum, and 2 ns as the last. */
  lemma ReadAfterStart(r: Receiver, i: Input, j: Input)
    requires !i.run && j.run && !j.line.en
    ensures StatisticsOf(ReceiverStep(ReceiverStep(r, i), j).ana)
         == Statistics(0, 0, 0, 0, 0, 0, 0, 0, 0, 0, Time(0xFFFF_FFFF_FFFF, 0xFFFF_FFFF), Time(0, 0), Time(0, 2),
                       Time(0, 0), 0, 0, 0, Time(0, 0))
  {
    var a := ReceiverStep(ReceiverStep(r, i), j).ana;
    hide StatisticsOf;
    hide CheckStep;
    hide ParseStep;
    hide Analyze;
    hide Written;
    assert a.published == Snapshot(ZERO, Time(0, 0), 0) && a.octetsIdleReg == 0 == a.octetsTotalReg;
    RegistersOf(a);
  }

  // ---- counters and latencies ----

  /** What is read after n test frames with the given template size, of which some have an
    unexpected number, and each has taken so many nanoseconds. */
  predicate Reads(s: Statistics, n: nat, errors: nat, frameSize: nat, nanos: nat) {
    && s.pkts == n % W64 && s.testframePkts == n % W64 && s.octets == n * ((frameSize + 14) % W32) % W64
    && s.badCrcPkts == 0 && s.badCrcOctets == 0 && s.badPreamblePkts == 0 && s.badPreambleOctets == 0
    && s.sequenceErrors == errors % W64
    && s.latency == s.latencyMin == s.latencyMax && s.latency.sec * BILLION + s.latency.nsec == nanos
  }

  lemma ReadOfReceived(a: AnalyzerRegs, n: nat, errors: nat, frameSize: nat, t: Time)
    requires AllReceived(a, n, errors, frameSize, t) && WellFormed(t)
    ensures Reads(StatisticsOf(a), n, errors, frameSize, Nanos(t))
  {
    hide StatisticsOf;
    RegistersOf(a);
    TimeFits(t);
  }

  lemma TimeFits(t: Time)
    requires WellFormed(t)
    ensures t == Time(t.sec % W64, t.nsec % W32)
  {
  }

  /** The program reads as many packets and test frames as have arrived, their octets, no bad
    ones, the sequence errors, and as latency three cycles through the filter and one without. */
  lemma {:induction false} StatisticsOfMeasurement(s: Tester, u: Setup, x: nat, base: seq<Shifted>,
                                                   ins: seq<ClockInput>, n: nat, t: nat)
    requires Measured(s, u, x, base, ins, n, t)
    ensures Reads(StatisticsOf(TesterRun(s, u, ins, t).rx.ana), |Arrived(u, n)|, Interruptions(u.gen, Least(u), n),
                  Size(u.gen), if u.filtered then 3 * u.ratio else u.ratio)
  {
    hide Reads;
    hide AllReceived;
    hide StatisticsOf;
    hide TimeOf;
    hide TesterRun;
    hide Interruptions;
    hide Arrived;
    hide Nanos;
    hide Start;
    hide ReceiverInv;
    hide TestTemplate;
    hide BeginAfresh;
    TesterShowsKeptFrames(s, u, x, base, ins, n, t);
    TransitIsPositive(u);
    ReadOfReceived(TesterRun(s, u, ins, t).rx.ana, |Arrived(u, n)|, Interruptions(u.gen, Least(u), n), Size(u.gen),
                   TimeOf(Transit(u)));
  }

  // ---- the last sequence error ----

  /** The time at which frame k arrives: three cycles after its first octet through the filter,
    one without. */
  function ArrivalTime(u: Setup, x: nat, k: nat): Time {
    TimeOf(x + ((if u.filtered then 3 else 1) + FrameStart(u.gen, k)) * u.ratio)
  }

  /** When the frames with the numbers ks have arrived: the time of each arrival. */
  function ArrivalTimes(u: Setup, x: nat, ks: seq<nat>): (ts: seq<Time>)
    ensures |ts| == |ks|
  {
    seq(|ks|, i requires 0 <= i < |ks| => ArrivalTime(u, x, ks[i]))
  }

  lemma {:induction false} TimesOfTestframes(base: seq<Shifted>, frames: seq<seq<Octet>>, tags: seq<Tag>, t: Time)
    requires |base| >= 4 && |frames| == |tags| && AllTimed(base, frames, tags, t)
    ensures |TestTimes(base, frames, tags)| == |tags|
    ensures forall i :: 0 <= i < |tags| ==> TestTimes(base, frames, tags)[i] == tags[i].stamp
    decreases |frames|
  {
    hide Timed;
    hide LatencyOf;
    if frames != [] {
      var n := |frames| - 1;
      TimesOfTestframes(base, frames[..n], tags[..n], t);
    }
  }

  lemma {:induction false} ArrivalOfTag(u: Setup, x: nat, m: nat, n: nat, ks: seq<nat>, i: nat)
    requires i < |ks| && ks[i] < n && Delay(u) + SlotStart(u.gen, n) <= m
    ensures ArrivalTags(u, Times(x, u.ratio, m), ks)[i].stamp == ArrivalTimes(u, x, ks)[i]
  {
    hide TimeOf;
    hide SlotStart;
    FrameFits(u.gen, ks[i], n);
    TimesAt(x, u.ratio, m, Delay(u) + FrameStart(u.gen, ks[i]));
  }

  lemma {:induction false} ErrorOfLogged(u: Setup, x: nat, m: nat, n: nat, ks: seq<nat>, r: Receiver,
                                         base: seq<Shifted>, l: Log)
    requires ReceiverInv(r, base, l) && LogInv(l) && !l.wire.ended
    requires TestTemplate(u.gen, u.mem) && BeginAfresh(u, n) && |base| >= 4 && Delay(u) + SlotStart(u.gen, n) <= m
    requires forall i :: 0 <= i < |ks| ==> ks[i] < n
    requires Usable(u.gen) && LoggedFrames(l, u, Times(x, u.ratio, m), ks)
    ensures NamesLastError(r.ana.counters, Wrapped(ks), ArrivalTimes(u, x, ks))
  {
    hide Usable;
    hide ReceiverInv;
    hide TestTemplate;
    hide BeginAfresh;
    hide SentFrames;
    hide Timed;
    hide TimeOf;
    hide Transit;
    hide FramesOf;
    hide ArrivalTags;
    hide Delay;
    hide Wrapped;
    hide NamesLastError;
    hide ArrivalTimes;
    hide AllTimed;
    var times, t := Times(x, u.ratio, m), TimeOf(Transit(u));
    var frames, tags, stamps := FramesOf(u, times, ks), ArrivalTags(u, times, ks), Stamps(u.gen, times, ks);
    FramesAreTestframes(u, x, ks, n, m);
    DelayIsConstant(u, x, ks, n, m);
    TestframesAreNumbered(u.gen, u.mem, frames, stamps, ks, base);
    TestframesAreTimed(u.gen, u.mem, frames, stamps, ks, base, tags, t);
    TimesOfTestframes(base, frames, tags, t);
    forall i | 0 <= i < |ks|
      ensures TestTimes(base, frames, tags)[i] == ArrivalTimes(u, x, ks)[i]
    {
      ArrivalOfTag(u, x, m, n, ks, i);
    }
    assert TestTimes(base, frames, tags) == ArrivalTimes(u, x, ks);
    assert l.wire.done[..|frames|] == frames && l.tags[..|frames|] == tags;
    LastErrorIsShown(r, base, l);
  }

  /** The last frame that arrived with an unexpected number is the one that the program reads,
    with the number that was expected and the time at which it arrived. */
  lemma {:induction false} ErrorOfMeasurement(s: Tester, u: Setup, x: nat, base: seq<Shifted>, ins: seq<ClockInput>,
                                              n: nat, t: nat)
    requires Measured(s, u, x, base, ins, n, t)
    ensures u.minGap < W32
    ensures var ks := Arrived(u, n);
      NamesLastError(TesterRun(s, u, ins, t).rx.ana.published.counters, Wrapped(ks), ArrivalTimes(u, x, ks))
  {
    hide TestTemplate;
    hide BeginAfresh;
    hide Start;
    hide ReceiverInv;
    hide TesterStep;
    hide Arrivals;
    hide LoggedFrames;
    hide NamesLastError;
    hide ArrivalTimes;
    hide TimeOf;
    hide Transit;
    hide LogStep;
    hide Usable;
    hide Kept;
    hide Wrapped;
    var times, r := Times(x, u.ratio, |ins|), TesterRun(s, u, ins, t).rx;
    var l := LogRun(EmptyLog(false), Arrivals(u, times)[..t]);
    TesterShowsKeptFrames(s, u, x, base, ins, n, t);
    AnalyzerShowsArrivals(s, u, x, base, ins, t);
    LogWhenQuiet(u, times, n, t);
    InvOfLog(r, base, l);
    ErrorOfLogged(u, x, |ins|, n, Arrived(u, n), r, base, l);
  }

  lemma {:induction false} LastOfEvens(ks: seq<nat>)
    requires Evens(ks) && |ks| >= 2
    ensures LastOutOfOrder(Wrapped(ks)) == |ks| - 1
    ensures (Wrapped(ks)[|ks| - 2] + 1) % W32 == (ks[|ks| - 1] - 1) % W32
  {
    var i := |ks| - 1;
    assert ks[i] == 2 * i && ks[i - 1] == 2 * i - 2;
    ModuloOfModulo(ks[i - 1]);
    NotTheNumberBefore(ks[i]);
    assert !Follows(Wrapped(ks), i);
  }

  lemma {:induction false} NamedOfEvens(c: Counters, ks: seq<nat>, ts: seq<Time>, n: nat)
    requires Evens(ks) && |ks| == |ts| == (n + 1) / 2 && n >= 3 && NamesLastError(c, Wrapped(ks), ts)
    ensures var k := (n - 1) / 2 * 2;
      && ks[|ks| - 1] == k
      && c.errorReceived == k % W64 && c.errorExpected == (k - 1) % W32 && c.errorTime == ts[|ks| - 1]
  {
    LastOfEvens(ks);
    hide LastOutOfOrder;
  }

  /** The gaps g are too short for the filter, but two of them and a frame are not. */
  predicate EverySecondLost(u: Setup, g: nat, n: nat) {
    && u.filtered && u.minGap < W32 && g < LeastGap(u.minGap) <= 2 * g + FrameLength(u.gen)
    && forall i :: 0 <= i < n ==> Gap(u.gen, i) == g
  }

  /** When every second frame is lost, it is the last frame that arrived, with the number
    before its own. */
  lemma {:induction false} LossIsNamed(s: Tester, u: Setup, x: nat, base: seq<Shifted>, ins: seq<ClockInput>,
                                       g: nat, n: nat, t: nat)
    requires Measured(s, u, x, base, ins, n, t) && EverySecondLost(u, g, n) && n >= 3
    ensures var c, k := TesterRun(s, u, ins, t).rx.ana.published.counters, (n - 1) / 2 * 2;
      && c.errorReceived == k % W64 && c.errorExpected == (k - 1) % W32
      && c.errorTime == ArrivalTime(u, x, k)
  {
    hide Gap;
    hide Kept;
    hide KeptNumbers;
    hide TesterRun;
    hide ArrivalTime;
    hide SlotStart;
    hide FrameLength;
    hide NamesLastError;
    hide Wrapped;
    hide Evens;
    hide Start;
    hide ReceiverInv;
    hide TestTemplate;
    hide BeginAfresh;
    hide Usable;
    hide ArrivalLog.Quiet;
    ErrorOfMeasurement(s, u, x, base, ins, n, t);
    HalfAreKept(u.gen, Least(u), g, n);
    NamedOfEvens(TesterRun(s, u, ins, t).rx.ana.published.counters, Arrived(u, n),
                 ArrivalTimes(u, x, Arrived(u, n)), n);
  }


  // ---- the last frame ----

  /** The size and the arrival time that the program reads are those of the last frame that has
    arrived. */
  lemma {:induction false} LastFrameOfMeasurement(s: Tester, u: Setup, x: nat, base: seq<Shifted>,
                                                  ins: seq<ClockInput>, n: nat, t: nat)
    requires Measured(s, u, x, base, ins, n, t)
    ensures u.minGap < W32
    ensures var st, k := StatisticsOf(TesterRun(s, u, ins, t).rx.ana), LastKept(u.gen, Least(u), n);
      && k >= 0 && st.frameSize == FrameLength(u.gen) % W32
      && st.timestamp == ArrivalTime(u, x, k)
  {
    hide TestTemplate;
    hide BeginAfresh;
    hide Start;
    hide ReceiverInv;
    hide TesterStep;
    hide Arrivals;
    hide LoggedFrames;
    hide TimeOf;
    hide LogStep;
    hide Usable;
    hide Kept;
    hide FrameLength;
    hide StatisticsOf;
    hide ArrivalTimes;
    hide SlotStart;
    hide CaptureOf;
    hide Capturing;
    hide LogInv;
    hide LastUnfrozen;
    var times, r := Times(x, u.ratio, |ins|), TesterRun(s, u, ins, t).rx;
    var l := LogRun(EmptyLog(false), Arrivals(u, times)[..t]);
    AnalyzerShowsArrivals(s, u, x, base, ins, t);
    LogWhenQuiet(u, times, n, t);
    LastArrival(l, u, times, Arrived(u, n));
    CaptureIsConsistent(r, base, l);
    CaptureOfLogged(r.ana, u, x, |ins|, n, base, l);
  }

  lemma ArrivalFits(u: Setup, x: nat, k: nat)
    ensures var t := ArrivalTime(u, x, k); t == Time(t.sec % W64, t.nsec % W32)
  {
    TimeFits(ArrivalTime(u, x, k));
    hide SlotStart;
  }

  lemma {:induction false} CaptureOfLogged(a: AnalyzerRegs, u: Setup, x: nat, m: nat, n: nat,
                                           base: seq<Shifted>, l: Log)
    requires Usable(u.gen) && u.minGap < W32 && n > 0 && Delay(u) + SlotStart(u.gen, n) <= m
    requires LoggedFrames(l, u, Times(x, u.ratio, m), Arrived(u, n)) && !l.wire.ended && LogInv(l)
    requires |base| >= 4 && LastUnfrozen(l.tags) >= 0 && CaptureOf(a, base, l, LastUnfrozen(l.tags))
    ensures var st, k := StatisticsOf(a), LastKept(u.gen, Least(u), n);
      && k >= 0 && st.frameSize == FrameLength(u.gen) % W32
      && st.timestamp == ArrivalTime(u, x, k)
  {
    hide Usable;
    hide FrameOf;
    hide FrameLength;
    hide StatisticsOf;
    hide SlotStart;
    hide Tally;
    hide Captured;
    hide Kept;
    var ks := Arrived(u, n);
    NoneFrozen(l.tags);
    ArrivalOfTag(u, x, m, n, ks, |ks| - 1);
    RegistersOf(a);
    ArrivalFits(u, x, ks[|ks| - 1]);
    hide ArrivalTime;
  }

  // ---- cycles ----

  lemma {:induction false} OctetsOfFrames(u: Setup, times: seq<Time>, ks: seq<nat>)
    requires Usable(u.gen)
    ensures TotalOctets(FramesOf(u, times, ks)) == |ks| * FrameLength(u.gen)
  {
    hide Usable;
    hide FrameOf;
    hide FrameLength;
    if ks != [] {
      var n := |ks| - 1;
      OctetsOfFrames(u, times, ks[..n]);
      assert FramesOf(u, times, ks)[..n] == FramesOf(u, times, ks[..n]);
      assert |ks| * FrameLength(u.gen) == n * FrameLength(u.gen) + FrameLength(u.gen);
    }
  }

  lemma {:induction false} LogTotal(l: Log, ins: seq<Input>)
    ensures LogRun(l, ins).total == l.total + |ins|
    ensures ins != [] ==> LogRun(l, ins).freeze == ins[|ins| - 1].freeze
  {
    if ins != [] {
      LogTotal(l, ins[..|ins| - 1]);
    }
  }

  lemma IdleOfLogged(l: Log, u: Setup, times: seq<Time>, ks: seq<nat>)
    requires Usable(u.gen) && LoggedFrames(l, u, times, ks) && !l.wire.ended && LogInv(l) && CyclesBalance(l)
    ensures l.idle == l.total - |ks| * FrameLength(u.gen)
  {
    hide Usable;
    hide FrameOf;
    hide FrameLength;
    OctetsOfFrames(u, times, ks);
    assert l.wire.done[..|l.wire.done|] == l.wire.done;
  }

  /** The log of what has arrived when it is quiet. */
  lemma {:induction false} CyclesLogged(s: Tester, u: Setup, x: nat, base: seq<Shifted>, ins: seq<ClockInput>,
                                        n: nat, t: nat)
    requires Usable(u.gen) && u.minGap < W32 && n > 0 && t <= |ins| && ArrivalLog.Quiet(u, n, t)
    requires Start(s, u, x) && ReceiverInv(s.rx, base, EmptyLog(false)) && NoPulses(ins)
    ensures var l := LogRun(EmptyLog(false), Arrivals(u, Times(x, u.ratio, |ins|))[..t]);
      && ReceiverInv(TesterRun(s, u, ins, t).rx, base, l) && !l.freeze
      && l.total == t && l.idle == t - |Arrived(u, n)| * FrameLength(u.gen)
  {
    hide Start;
    hide ReceiverInv;
    hide TesterStep;
    hide LoggedFrames;
    hide TimeOf;
    hide LogStep;
    hide Usable;
    hide Kept;
    hide FrameLength;
    hide CyclesBalance;
    hide ArrivingAt;
    hide ArrivalLog.Quiet;
    hide Arrived;
    var times := Times(x, u.ratio, |ins|);
    var inputs := Arrivals(u, times)[..t];
    var l := LogRun(EmptyLog(false), inputs);
    AnalyzerShowsArrivals(s, u, x, base, ins, t);
    LogWhenQuiet(u, times, n, t);
    InvOfLog(TesterRun(s, u, ins, t).rx, base, l);
    EmptyLogBalances(false);
    LogRunBalances(EmptyLog(false), inputs);
    LogTotal(EmptyLog(false), inputs);
    IdleOfLogged(l, u, times, Arrived(u, n));
  }

  lemma {:induction false} CyclesInStep(r: Receiver, base: seq<Shifted>, l: Log, i: Input)
    requires ReceiverInv(r, base, l) && !l.freeze && i.run
    ensures var st := StatisticsOf(ReceiverStep(r, i).ana);
      st.octetsTotal == l.total % W64 && st.octetsIdle == l.idle % W64
  {
    hide ReceiverInv;
    hide ReceiverStep;
    hide StatisticsOf;
    assert [i] + [] == [i] && [i][..0] == [];
    assert ReceiverRun(r, [i]) == ReceiverStep(r, i);
    CyclesAreShown(r, base, l, i, []);
    RegistersOf(ReceiverStep(r, i).ana);
  }

  /** The cycles that the program reads are those before the last, and the idle ones among them
    are those in which no octet of an arriving frame was on the line. */
  lemma {:induction false} CyclesOfMeasurement(s: Tester, u: Setup, x: nat, base: seq<Shifted>, ins: seq<ClockInput>,
                                               n: nat, t: nat)
    requires Measured(s, u, x, base, ins, n, t)
    ensures u.minGap < W32
    ensures var st := StatisticsOf(TesterRun(s, u, ins, t).rx.ana);
      && st.octetsTotal == (t - 1) % W64
      && st.octetsIdle == (t - 1 - |Arrived(u, n)| * FrameLength(u.gen)) % W64
  {
    hide TestTemplate;
    hide BeginAfresh;
    hide Start;
    hide ReceiverInv;
    hide ReceiverStep;
    hide TesterRun;
    hide LogRun;
    hide Usable;
    hide FrameLength;
    hide StatisticsOf;
    hide Arrived;
    hide Arrivals;
    CyclesLogged(s, u, x, base, ins, n, t - 1);
    LastStep(s, u, ins, t);
    var before := TesterRun(s, u, ins, t - 1);
    CyclesInStep(before.rx, base, LogRun(EmptyLog(false), Arrivals(u, Times(x, u.ratio, |ins|))[..t - 1]),
                 InputToAnalyzer(before, u, true));
  }
}
