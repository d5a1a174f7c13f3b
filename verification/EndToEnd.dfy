/** The tester end to end: what the analyzer shows of what the generator has sent. */
module EndToEnd {
  import opened Arithmetic
  import opened Octets
  import opened Gmii
  import opened BramIo
  import opened CrcCheck
  import opened TestframeParser
  import opened TrafficAnalyzer
  import opened Receiver
  import opened ReceiverRuns
  import opened TrafficGenerator
  import opened GeneratorStream
  import opened GeneratorRuns
  import opened RtClock
  import opened FilterGmii
  import opened TesterLoop
  import opened FilteredStream
  import opened TesterRuns
  import opened ArrivalLog
  import opened Testframes

  // ---- what the analyzer shows ----

  function Stamps(c: Config, times: seq<Time>, ks: seq<nat>): (ts: seq<Time>)
    ensures |ts| == |ks|
  {
    seq(|ks|, i requires 0 <= i < |ks| => StampOf(c, times, ks[i]))
  }

  /** The first n frames begin with the template, and not with a word left over from the
    frame before. */
  ghost predicate BeginAfresh(u: Setup, n: nat) {
    forall k :: 0 <= k < n ==> FirstWord(u.gen, u.mem, k) == u.mem[0]
  }

  /** The gap registers leave time to fetch the first word of the template again. */
  predicate Refetches(c: Config) {
    c.interframeGap != 3 && (c.framesPerBurst > 0 ==> c.interburstGap != 3)
  }

  /** Then all frames do, whatever the buffer holds. */
  lemma RefetchingBeginsAfresh(u: Setup, n: nat)
    requires Usable(u.gen) && Refetches(u.gen)
    ensures BeginAfresh(u, n)
  {
    forall k | 0 <= k < n
      ensures FirstWord(u.gen, u.mem, k) == u.mem[0]
    {
      if k > 0 {
        var r := GapRegister(u.gen, k - 1);
        assert r < 3 || r > 3;
      }
    }
  }

  lemma FramesAreTestframes(u: Setup, x: nat, ks: seq<nat>, n: nat, m: nat)
    requires TestTemplate(u.gen, u.mem) && BeginAfresh(u, n) && forall i :: 0 <= i < |ks| ==> ks[i] < n
    ensures var times := Times(x, u.ratio, m);
      SentFrames(u.gen, u.mem, FramesOf(u, times, ks), Stamps(u.gen, times, ks), ks)
  {
    assert Usable(u.gen);
    hide TestTemplate;
    hide Frame;
    hide TimeOf;
    hide Usable;
    hide FirstWord;
  }

  /** The latency that the analyzer computes between two times of the clock is the elapsed
    time, even when the seconds wrap in between. */
  lemma LatencyOfElapsed(a: nat, d: nat)
    ensures Latency(TimeOf(a + d), TimeOf(a)) == TimeOf(d)
  {
    hide Latency;
    SumParts(a, d);
    LatencyOfParts((a + d) / BILLION, (a + d) % BILLION, a / BILLION, a % BILLION);
  }

  lemma LatencyOfParts(s: nat, n: nat, s0: nat, n0: nat)
    requires n < BILLION && n0 < BILLION
    ensures
      var borrow := if n < n0 then 1 else 0;
      Latency(Time(s % W48, n), Time(s0 % W48, n0)) == Time((s - s0 - borrow) % W48, n - n0 + borrow * BILLION)
  {
    ModuloOfDifference(s, s0, if n < n0 then 1 else 0, W48);
  }

  /** What every frame takes from the stamp of the generator to that of the analyzer. */
  function Transit(u: Setup): (ns: nat)
    ensures ns == Delay(u) * u.ratio
  {
    if u.filtered then 3 * u.ratio else u.ratio
  }

  lemma TransitIsPositive(u: Setup)
    ensures WellFormed(TimeOf(Transit(u))) && Nanos(TimeOf(Transit(u))) == Transit(u) > 0
  {
    hide TimeOf;
  }

  /** Every frame takes the same time, whichever frames arrive. */
  lemma {:induction false} DelayIsConstant(u: Setup, x: nat, ks: seq<nat>, n: nat, m: nat)
    requires (forall i :: 0 <= i < |ks| ==> ks[i] < n) && Delay(u) + SlotStart(u.gen, n) <= m
    ensures var times := Times(x, u.ratio, m);
      Delayed(ArrivalTags(u, times, ks), Stamps(u.gen, times, ks), TimeOf(Transit(u)))
  {
    hide TimeOf;
    hide Latency;
    hide Times;
    hide ClockAt;
    hide StampOf;
    hide FrameStart;
    forall i | 0 <= i < |ks|
      ensures var times := Times(x, u.ratio, m);
        Latency(ArrivalTags(u, times, ks)[i].stamp, Stamps(u.gen, times, ks)[i]) == TimeOf(Transit(u))
    {
      DelayOfFrame(u, x, n, m, ks[i]);
    }
  }

  lemma {:induction false} DelayOfFrame(u: Setup, x: nat, n: nat, m: nat, k: nat)
    requires k < n && Delay(u) + SlotStart(u.gen, n) <= m
    ensures var times := Times(x, u.ratio, m);
      Latency(ClockAt(times, Delay(u) + FrameStart(u.gen, k)), StampOf(u.gen, times, k)) == TimeOf(Transit(u))
  {
    hide TimeOf;
    hide Latency;
    hide SlotStart;
    hide Times;
    var d, s := Delay(u), FrameStart(u.gen, k);
    FrameFits(u.gen, k, n);
    TimesAt(x, u.ratio, m, s);
    TimesAt(x, u.ratio, m, d + s);
    TimesApart(x, s, d, u.ratio);
  }

  lemma TimesAt(x: nat, ratio: Ratio, m: nat, t: nat)
    requires t < m
    ensures Times(x, ratio, m)[t] == TimeOf(x + t * ratio)
  {
    hide TimeOf;
  }

  lemma TimesApart(x: nat, s: nat, d: nat, ratio: Ratio)
    ensures Latency(TimeOf(x + (d + s) * ratio), TimeOf(x + s * ratio)) == TimeOf(d * ratio)
  {
    hide TimeOf;
    hide Latency;
    LatencyOfElapsed(x + s * ratio, d * ratio);
    assert (d + s) * ratio == s * ratio + d * ratio;
  }

  /** What the statistics have to show after n test frames with the given template size, some
    with an unexpected number. */
  ghost predicate ShowsAll(c: Counters, n: nat, errors: nat, frameSize: nat) {
    && c.pkts == n % W64 && c.testframePkts == n % W64 && c.octets == n * ((frameSize + 14) % W32) % W64
    && c.badCrcPkts == 0 && c.badCrcOctets == 0 && c.badPreamblePkts == 0 && c.badPreambleOctets == 0
    && c.sequenceErrors == errors % W64
  }

  lemma {:induction false} ShowsWhatIsCounted(b: Book, base: seq<Shifted>, frames: seq<seq<Octet>>, octets: nat,
                                              ns: seq<nat>, frameSize: nat)
    requires |base| >= 4 && |ns| == |frames|
    requires CountedKind(b.counters, base, frames, Good) && CountedKind(b.counters, base, frames, BadCrc)
    requires CountedKind(b.counters, base, frames, BadPreamble) && CountedTestframes(b, base, frames)
    requires FramesOfKind(base, frames, Good) == |frames| && OctetsOfKind(base, frames, Good) == octets
    requires octets == |frames| * ((frameSize + 14) % W32)
    requires FramesOfKind(base, frames, BadCrc) == 0 && OctetsOfKind(base, frames, BadCrc) == 0
    requires FramesOfKind(base, frames, BadPreamble) == 0 && OctetsOfKind(base, frames, BadPreamble) == 0
    requires TestNumbers(base, frames) == ns
    ensures ShowsAll(b.counters, |frames|, SequenceErrors(ns), frameSize)
  {
    hide ReportOn;
    hide KindOf;
    hide Timed;
    hide SequenceErrors;
  }

  lemma {:induction false} TallyOfTestframes(c: Config, mem: Memory, frames: seq<seq<Octet>>, stamps: seq<Time>,
                                             ks: seq<nat>, base: seq<Shifted>, tags: seq<Tag>)
    requires |base| >= 4 && |frames| == |ks| == |tags| && Usable(c)
    requires SentFrames(c, mem, frames, stamps, ks)
    ensures ShowsAll(Tally(base, frames, tags).counters, |ks|, SequenceErrors(Wrapped(ks)), Size(c))
  {
    hide Usable;
    hide SentFrames;
    hide CountedKind;
    hide CountedTestframes;
    hide ShowsAll;
    hide ReportOn;
    hide Account;
    hide KindOf;
    hide Timed;
    hide Wrapped;
    hide SequenceErrors;
    hide ExpectedAfter;
    TestframesAreGood(c, mem, frames, stamps, ks, base);
    TestframesAreNumbered(c, mem, frames, stamps, ks, base);
    TallyCounts(base, frames, tags, Good);
    TallyCounts(base, frames, tags, BadCrc);
    TallyCounts(base, frames, tags, BadPreamble);
    ShowsWhatIsCounted(Tally(base, frames, tags), base, frames, OctetsOfKind(base, frames, Good), Wrapped(ks), Size(c));
  }

  /** The latency statistics have caught up one cycle after the last frame was accounted for. */
  lemma LatencySettles(r: Receiver, base: seq<Shifted>, l: Log, i: Input)
    requires ReceiverInv(r, base, l) && !l.wire.ended
    ensures var a := ReceiverStep(r, i).ana.latency; !a.update && !a.updateRegs
  {
    hide CheckInv;
    hide ParserInv;
    hide CountInv;
    hide BufferInv;
    hide LatencyLogInv;
    hide CheckStep;
    hide ParseStep;
    hide Analyze;
    hide Written;
  }

  lemma {:induction false} StatisticsShow(r: Receiver, base: seq<Shifted>, l: Log)
    requires ReceiverInv(r, base, l) && !l.wire.ended && !r.ana.latency.update && !r.ana.latency.updateRegs
    requires |base| >= 4 && |l.tags| == |l.wire.done|
    ensures var frames, tags, a := l.wire.done, l.tags, r.ana;
      && a.counters == Tally(base, frames, tags).counters
      && a.published == Published(base, frames, tags)
      && Extremes(a.latency.last, a.latency.min, a.latency.max) == Latencies(base, frames, tags)
      && Extremes(a.latency.lastReg, a.latency.minReg, a.latency.maxReg) == PublishedLatencies(base, frames, tags)
  {
    hide CheckInv;
    hide ParserInv;
    hide FrameInv;
    hide BufferInv;
    hide ReportOn;
    hide Account;
    hide Timed;
    hide LatencyOf;
    var n := |l.wire.done|;
    assert l.wire.done[..n] == l.wire.done && l.tags[..n] == l.tags;
  }

  lemma {:induction false} LastIsPublished(base: seq<Shifted>, frames: seq<seq<Octet>>, tags: seq<Tag>)
    requires |base| >= 4 && |frames| == |tags| && frames != [] && !tags[|tags| - 1].frozen
    ensures Published(base, frames, tags).counters == Tally(base, frames, tags).counters
  {
    hide ReportOn;
    hide Account;
  }

  /** All n frames were received as good test frames, all with latency t. */
  ghost predicate AllReceived(a: AnalyzerRegs, n: nat, errors: nat, frameSize: nat, t: Time) {
    && ShowsAll(a.counters, n, errors, frameSize) && a.published.counters == a.counters
    && a.latency.last == a.latency.min == a.latency.max == t
    && a.latency.lastReg == a.latency.minReg == a.latency.maxReg == t
  }

  lemma {:induction false} ReceivedAll(u: Setup, x: nat, m: nat, n: nat, ks: seq<nat>, r: Receiver,
                                       base: seq<Shifted>, l: Log)
    requires ReceiverInv(r, base, l) && !l.wire.ended && !r.ana.latency.update && !r.ana.latency.updateRegs
    requires TestTemplate(u.gen, u.mem) && BeginAfresh(u, n) && |base| >= 4 && Delay(u) + SlotStart(u.gen, n) <= m
    requires ks != [] && forall i :: 0 <= i < |ks| ==> ks[i] < n
    requires LoggedFrames(l, u, Times(x, u.ratio, m), ks)
    ensures AllReceived(r.ana, |ks|, SequenceErrors(Wrapped(ks)), Size(u.gen), TimeOf(Transit(u)))
  {
    assert Usable(u.gen);
    hide Usable;
    hide ReceiverInv;
    hide TestTemplate;
    hide BeginAfresh;
    hide ShowsAll;
    hide SentFrames;
    hide SequenceErrors;
    hide Wrapped;
    hide Timed;
    hide Account;
    hide ReportOn;
    hide TimeOf;
    hide Transit;
    hide WellFormed;
    hide Nanos;
    hide FramesOf;
    hide ArrivalTags;
    hide Delay;
    var times, t := Times(x, u.ratio, m), TimeOf(Transit(u));
    var frames, tags, stamps := FramesOf(u, times, ks), ArrivalTags(u, times, ks), Stamps(u.gen, times, ks);
    StatisticsShow(r, base, l);
    FramesAreTestframes(u, x, ks, n, m);
    DelayIsConstant(u, x, ks, n, m);
    TallyOfTestframes(u.gen, u.mem, frames, stamps, ks, base, tags);
    TestframesAreTimed(u.gen, u.mem, frames, stamps, ks, base, tags, t);
    TransitIsPositive(u);
    LatenciesAreEqual(base, frames, tags, t);
    LastIsPublished(base, frames, tags);
  }

  /** As long as the clock of the tester is not set by pulses, the registers of the analyzer
    show what the log of the arriving stream implies. */
  lemma {:induction false} AnalyzerShowsArrivals(s: Tester, u: Setup, x: nat, base: seq<Shifted>,
                                                 ins: seq<ClockInput>, t: nat)
    requires Start(s, u, x) && ReceiverInv(s.rx, base, EmptyLog(false)) && NoPulses(ins) && t <= |ins|
    ensures |base| >= 4
    ensures ReceiverInv(TesterRun(s, u, ins, t).rx, base,
                        LogRun(EmptyLog(false), Arrivals(u, Times(x, u.ratio, |ins|))[..t]))
  {
    hide ReceiverInv;
    hide ReceiverStep;
    hide TesterStep;
    hide ArrivingAt;
    hide TimeOf;
    hide LogStep;
    hide Ready;
    hide Waiting;
    hide Ticking;
    hide Usable;
    BaseIsLong(s.rx, base, EmptyLog(false));
    AnalyzerSees(s, u, x, ins, t);
    ReceiverRunInv(s.rx, base, EmptyLog(false), Arrivals(u, Times(x, u.ratio, |ins|))[..t]);
  }

  lemma ShowsKeptFrames(s: Tester, u: Setup, x: nat, base: seq<Shifted>, ins: seq<ClockInput>, n: nat, t: nat)
    requires Usable(u.gen) && u.minGap < W32 && TestTemplate(u.gen, u.mem) && BeginAfresh(u, n)
    requires Start(s, u, x) && ReceiverInv(s.rx, base, EmptyLog(false)) && NoPulses(ins)
    requires 0 < n && t <= |ins| && Quiet(u, n, t) && Quiet(u, n, t - 1)
    ensures AllReceived(TesterRun(s, u, ins, t).rx.ana, |Arrived(u, n)|, Interruptions(u.gen, Least(u), n),
                        Size(u.gen), TimeOf(Transit(u)))
  {
    hide TestTemplate;
    hide BeginAfresh;
    hide Start;
    hide ReceiverInv;
    hide ReceiverStep;
    hide TesterStep;
    hide InputToAnalyzer;
    hide AllReceived;
    hide Arrivals;
    hide Logged;
    hide TimeOf;
    hide Times;
    hide FramesOf;
    hide ArrivalTags;
    hide Transit;
    hide LogStep;
    hide Usable;
    hide Kept;
    var times := Times(x, u.ratio, |ins|);
    var l := LogRun(EmptyLog(false), Arrivals(u, times)[..t]);
    var before := TesterRun(s, u, ins, t - 1);
    AnalyzerShowsArrivals(s, u, x, base, ins, t - 1);
    AnalyzerShowsArrivals(s, u, x, base, ins, t);
    LogWhenQuiet(u, times, n, t - 1);
    LogWhenQuiet(u, times, n, t);
    LastStep(s, u, ins, t);
    LatencySettles(before.rx, base, LogRun(EmptyLog(false), Arrivals(u, times)[..t - 1]),
                   InputToAnalyzer(before, u, true));
    ReceivedAll(u, x, |ins|, n, Arrived(u, n), TesterRun(s, u, ins, t).rx, base, l);
    ErrorsAreInterruptions(u.gen, Least(u), n);
  }

  /** A run of the tester with a template for test frames in its buffer, t cycles long, in
    which n frames have been sent and nothing is on its way. */
  ghost predicate Measured(s: Tester, u: Setup, x: nat, base: seq<Shifted>, ins: seq<ClockInput>, n: nat, t: nat) {
    && Usable(u.gen) && u.minGap < W32 && TestTemplate(u.gen, u.mem) && BeginAfresh(u, n)
    && Start(s, u, x) && ReceiverInv(s.rx, base, EmptyLog(false)) && NoPulses(ins)
    && 0 < n && t <= |ins| && Quiet(u, n, t) && Quiet(u, n, t - 1)
  }

  /** The tester measures itself exactly, whatever the filter does. Of n frames sent, those
    that begin at least the least gap after the last one let through arrive; the analyzer
    shows that many good packets and test frames of frame size plus 14 octets and no bad
    ones; the sequence errors are the interruptions; and every latency statistic is exactly
    one clock cycle on a direct line and three cycles through the filter, wherever in a
    second the frames fall. */
  lemma {:induction false} TesterShowsKeptFrames(s: Tester, u: Setup, x: nat, base: seq<Shifted>,
                                                 ins: seq<ClockInput>, n: nat, t: nat)
    requires Measured(s, u, x, base, ins, n, t)
    ensures AllReceived(TesterRun(s, u, ins, t).rx.ana, |Arrived(u, n)|, Interruptions(u.gen, Least(u), n),
                        Size(u.gen), TimeOf(Transit(u)))
  {
    hide TestTemplate;
    hide BeginAfresh;
    hide Start;
    hide ReceiverInv;
    hide TesterStep;
    hide AllReceived;
    hide TimeOf;
    hide Transit;
    hide Usable;
    hide Kept;
    ShowsKeptFrames(s, u, x, base, ins, n, t);
  }

  /** On a direct line, and through a filter for which all gaps between them are long enough,
    all frames arrive, and no number among the first 2 to the power 32 is an error. */
  lemma {:induction false} TesterIsExact(s: Tester, u: Setup, x: nat, base: seq<Shifted>, ins: seq<ClockInput>,
                                         n: nat, t: nat)
    requires Measured(s, u, x, base, ins, n, t)
    requires u.filtered ==> forall i :: 0 <= i < n - 1 ==> Gap(u.gen, i) >= LeastGap(u.minGap)
    ensures AllReceived(TesterRun(s, u, ins, t).rx.ana, n, LongNumbers(n), Size(u.gen), TimeOf(Transit(u)))
  {
    TesterShowsKeptFrames(s, u, x, base, ins, n, t);
    hide Measured;
    hide AllReceived;
    hide LongNumbers;
    hide Kept;
    AllNumbersKept(u.gen, Least(u), n);
    NumbersInOrder(u.gen, Least(u), n);
  }

  lemma {:induction false} AllArriveWhen(u: Setup, n: nat)
    requires u.minGap < W32
    ensures |Arrived(u, n)| <= n
    ensures |Arrived(u, n)| == n <==> (u.filtered ==> LongGaps(u.gen, LeastGap(u.minGap), n))
  {
    AllKeptWhen(u.gen, Least(u), n);
    GapsAreLong(u.gen, Least(u), n);
    NoGapNeeded(u.gen, n);
    hide LongGaps;
    hide Gap;
  }

  lemma NoGapNeeded(c: Config, n: nat)
    ensures LongGaps(c, 0, n)
  {
  }

  lemma PktsShown(a: AnalyzerRegs, n: nat, errors: nat, frameSize: nat, t: Time)
    requires AllReceived(a, n, errors, frameSize, t) && n < W64
    ensures a.published.counters.pkts == n
  {
  }

  /** The analyzer shows as many packets as were sent if and only if the line is direct or the
    gap registers that were used are long enough for the filter. */
  lemma {:induction false} AllFramesArrive(s: Tester, u: Setup, x: nat, base: seq<Shifted>, ins: seq<ClockInput>,
                                           n: nat, t: nat)
    requires Measured(s, u, x, base, ins, n, t) && n < W64
    ensures TesterRun(s, u, ins, t).rx.ana.published.counters.pkts == n
       <==> (u.filtered ==> LongGaps(u.gen, LeastGap(u.minGap), n))
  {
    TesterShowsKeptFrames(s, u, x, base, ins, n, t);
    hide Measured;
    hide LongGaps;
    hide Interruptions;
    hide AllReceived;
    hide TimeOf;
    hide Transit;
    hide TesterRun;
    AllArriveWhen(u, n);
    PktsShown(TesterRun(s, u, ins, t).rx.ana, |Arrived(u, n)|, Interruptions(u.gen, Least(u), n), Size(u.gen),
              TimeOf(Transit(u)));
  }

  /** When a gap is too short for the filter, but two and a frame are long enough, every
    second frame is lost and every number but the first is an error. */
  lemma {:induction false} TesterLosesHalf(s: Tester, u: Setup, x: nat, base: seq<Shifted>, ins: seq<ClockInput>,
                                           g: nat, n: nat, t: nat)
    requires Measured(s, u, x, base, ins, n, t) && u.filtered
    requires forall i :: 0 <= i < n ==> Gap(u.gen, i) == g
    requires g < LeastGap(u.minGap) <= 2 * g + FrameLength(u.gen)
    ensures AllReceived(TesterRun(s, u, ins, t).rx.ana, (n + 1) / 2, (n + 1) / 2 - 1, Size(u.gen), TimeOf(Transit(u)))
  {
    TesterShowsKeptFrames(s, u, x, base, ins, n, t);
    hide Measured;
    hide AllReceived;
    hide Kept;
    HalfAreKept(u.gen, Least(u), g, n);
    NumbersApart(u.gen, Least(u), g, n);
  }

  /** What the filter powers up with, and the interframe gap register that the generator
    program writes when it is not asked for a gap. */
  const MIN_INTERFRAME_GAP_DEFAULT: nat := 21
  const INTERFRAME_GAP_DEFAULT: nat := 12

  /** With the defaults of filter and program half of the frames are lost. */
  lemma {:induction false} DefaultsLoseHalf(s: Tester, u: Setup, x: nat, base: seq<Shifted>, ins: seq<ClockInput>,
                                            n: nat, t: nat)
    requires Measured(s, u, x, base, ins, n, t) && u.filtered && u.minGap == MIN_INTERFRAME_GAP_DEFAULT
    requires u.gen.interframeGap == INTERFRAME_GAP_DEFAULT && u.gen.framesPerBurst == 0
    ensures AllReceived(TesterRun(s, u, ins, t).rx.ana, (n + 1) / 2, (n + 1) / 2 - 1, Size(u.gen), TimeOf(Transit(u)))
  {
    TesterLosesHalf(s, u, x, base, ins, INTERFRAME_GAP_DEFAULT, n, t);
    hide Measured;
    hide AllReceived;
  }
}
