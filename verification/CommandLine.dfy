/** From the command line of the generator program to the statistics of the analyzer. */
module CommandLine {
  import opened Arithmetic
  import opened BramIo
  import opened CrcCheck
  import opened Receiver
  import opened GeneratorStream
  import opened RtClock
  import opened TesterLoop
  import opened TesterRuns
  import opened TesterStart
  import opened ArrivalLog
  import opened Testframes
  import opened EndToEnd
  import opened Hexstr
  import opened AxiWrite
  import opened Upload

  /** What is asked for on the command line. */
  datatype Command = Command(
    frameSize: Word32, hexstr: string, interframeGap: Word32, interburstGap: Word32, framesPerBurst: Word32,
    totalFrames: nat, testframeType: Option<string>)

  /** Test frames that fit the frame buffer, with 00 07 at octets 36 and 37 of their data, and no
    gap of 11. */
  predicate AsksForTestframes(c: Command) {
    && c.totalFrames < W64 && IsDynamic(c.testframeType) && 60 <= c.frameSize <= 2048 + 14
    && IsHex(c.hexstr[..|c.hexstr| / 2 * 2])
    && Payload(c.hexstr, c.frameSize - 22)[36] == 0 && Payload(c.hexstr, c.frameSize - 22)[37] == 7
    && c.interframeGap != 11 && (c.framesPerBurst > 0 ==> c.interburstGap != 11)
  }

  /** What `TrafficGeneratorCommon` leaves in the registers that it writes. */
  ghost predicate Uploaded(c: Command, r: Registers)
    requires AsksForTestframes(c)
  {
    && r.settings == Configured(c.frameSize, c.interframeGap, c.interburstGap, c.framesPerBurst, c.totalFrames,
                                c.testframeType)
    && Holds(r.mem, PreambleOctets() + Payload(c.hexstr, c.frameSize - 22), c.frameSize - 14)
  }

  /** The tester whose generator has the registers and the frame buffer of the front end. */
  predicate Wired(u: Setup, f: FrontEnd) {
    u.gen == ConfigOf(Seen(f).settings) && u.mem == Seen(f).mem
  }

  lemma UploadedRegisters(c: Command, r: Registers)
    requires AsksForTestframes(c) && Uploaded(c, r)
    ensures var g := ConfigOf(r.settings);
      TestTemplate(g, r.mem) && Refetches(g) && Size(g) == c.frameSize - 14
  {
    UploadPreparesTester(r, c.hexstr, c.frameSize, c.interframeGap, c.interburstGap, c.framesPerBurst, c.totalFrames,
                         c.testframeType);
    hide Payload;
    hide Holds;
    hide TestTemplate;
    hide Refetches;
    hide Decoded;
  }

  lemma {:induction false} UploadedSetup(c: Command, f: FrontEnd, ts: seq<Beat>, r: Registers, u: Setup, n: nat)
    requires AsksForTestframes(c) && Uploaded(c, r) && Wired(u, FrontEndRun(f, ts))
    requires AxiWrite.Resting(f) && LegalRun(NO_WRITES, f, ts)
    requires r == AllWrites(Seen(f), SessionRun(NO_WRITES, f, ts).writes)
    ensures Usable(u.gen) && TestTemplate(u.gen, u.mem) && BeginAfresh(u, n) && Size(u.gen) == c.frameSize - 14
  {
    hide AsksForTestframes;
    hide Uploaded;
    hide BeginAfresh;
    hide Refetches;
    hide Usable;
    hide Template;
    hide TemplateOctet;
    hide AllWrites;
    hide SessionRun;
    hide FrontEndRun;
    hide LegalRun;
    hide AxiWrite.Resting;
    hide Seen;
    hide ConfigOf;
    hide Size;
    WritesReachHardware(f, ts, r);
    UploadedRegisters(c, r);
    RefetchingBeginsAfresh(u, n);
  }

  /** Upload, reset, start. */
  function Started(s: Tester, u: Setup, rx: Receiver, i: ClockInput, js: seq<ClockInput>, k: ClockInput): Tester {
    TesterEdge(StoppedRun(TesterReset(s, WithoutRun(u), rx, i), WithoutRun(u), js), u, true, k)
  }

  /** However the program's writes are timed on the bus, and whatever was in the registers of the
    tester before: after the upload, a reset, enough stopped cycles and the start, and n frames
    sent, the analyzer shows exactly the frames that the filter has let through, each of the
    size that was asked for, and the transit time as the only latency. */
  lemma {:induction false} CommandLineToStatistics(
    c: Command, f: FrontEnd, ts: seq<Beat>, r: Registers, u: Setup,
    s: Tester, rx: Receiver, i: ClockInput, js: seq<ClockInput>, k: ClockInput, ins: seq<ClockInput>, n: nat, t: nat)
    requires AsksForTestframes(c) && Uploaded(c, r) && Wired(u, FrontEndRun(f, ts))
    requires AxiWrite.Resting(f) && LegalRun(NO_WRITES, f, ts)
    requires r == AllWrites(Seen(f), SessionRun(NO_WRITES, f, ts).writes)
    requires u.minGap < W32 && !k.enabled && Reachable(s.filter)
    requires |js| >= Rest(TesterReset(s, u, rx, i).filter) + 2
    requires NoPulses(ins) && 0 < n && t <= |ins| && ArrivalLog.Quiet(u, n, t) && ArrivalLog.Quiet(u, n, t - 1)
    ensures AllReceived(TesterRun(Started(s, u, rx, i, js, k), u, ins, t).rx.ana, |Arrived(u, n)|,
                        Interruptions(u.gen, Least(u), n), c.frameSize - 14, TimeOf(Transit(u)))
  {
    hide AsksForTestframes;
    hide Uploaded;
    hide Wired;
    hide Usable;
    hide TestTemplate;
    hide BeginAfresh;
    hide Start;
    hide ReceiverInv;
    hide AllReceived;
    hide TimeOf;
    hide Transit;
    hide TesterEdge;
    hide TesterReset;
    hide StoppedRun;
    hide TesterRun;
    var s' := Started(s, u, rx, i, js, k);
    UploadedSetup(c, f, ts, r, u, n);
    TesterStarts(s, u, rx, i, js, k);
    TesterShowsKeptFrames(s', u, Elapsed(u.ratio, |js| + 1), PowerUp(s'.rx.check), ins, n, t);
  }
}
