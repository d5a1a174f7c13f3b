/** When a read-out is of one state, and when it is not. */
module TornReadOut {
  import opened Arithmetic
  import opened Octets
  import opened Gmii
  import opened BramIo
  import opened CrcCheck
  import opened TestframeParser
  import opened TrafficAnalyzer
  import opened Receiver
  import opened ReceiverRuns
  import opened Conservation
  import opened FreezeCapture
  import opened AxiRead
  import opened LiveReadOut

  // ---- an unfrozen frame in flight ----

  const FROZEN_IDLE: Input := Input(IDLE, Time(0, 0), true, true)

  /** Two idle cycles while the statistics are frozen. */
  const TWO_IDLE: seq<Input> := [FROZEN_IDLE, FROZEN_IDLE]

  function FramesIn(c: Counters): nat {
    (c.pkts % W64 + c.badCrcPkts % W64 + c.badPreamblePkts % W64) % W64
  }

  lemma FramesInReduced(c: Counters)
    requires c.pkts < W64 && c.badCrcPkts < W64 && c.badPreamblePkts < W64
    ensures FramesIn(c) == (c.pkts + c.badCrcPkts + c.badPreamblePkts) % W64
  {
    Reduced(c.pkts);
    Reduced(c.badCrcPkts);
    Reduced(c.badPreamblePkts);
    assert c.pkts % W64 + c.badCrcPkts % W64 + c.badPreamblePkts % W64 == c.pkts + c.badCrcPkts + c.badPreamblePkts;
  }

  lemma Reduced(a: nat)
    requires a < W64
    ensures a % W64 == a
  {
  }

  lemma {:induction false} FramesInTally(base: seq<Shifted>, frames: seq<seq<Octet>>, tags: seq<Tag>)
    requires |base| >= 4 && |frames| == |tags|
    ensures FramesIn(Tally(base, frames, tags).counters) == |frames| % W64
  {
    hide FramesIn;
    hide FramesOfKind;
    hide OctetsOfKind;
    hide CountedTestframes;
    hide Tally;
    var c := Tally(base, frames, tags).counters;
    TallyCounts(base, frames, tags, Good);
    TallyCounts(base, frames, tags, BadCrc);
    TallyCounts(base, frames, tags, BadPreamble);
    FramesInReduced(c);
    CountersBalance(c, base, frames, TotalOctets(frames), 0);
  }

  lemma {:induction false} FramesPublished(base: seq<Shifted>, frames: seq<seq<Octet>>, tags: seq<Tag>)
    requires |base| >= 4 && |frames| == |tags|
    ensures FramesIn(Published(base, frames, tags).counters) == (LastUnfrozen(tags) + 1) % W64
  {
    hide Tally;
    hide LastUnfrozen;
    PublishedIsLastUnfrozen(base, frames, tags);
    hide Published;
    var u := LastUnfrozen(tags);
    if u >= 0 {
      FramesInTally(base, frames[..u + 1], tags[..u + 1]);
    }
  }

  lemma {:induction false} FlightEnds(l: Log)
    requires LogInv(l) && l.freeze && Capturing(l)
    ensures var l', n := LogRun(l, TWO_IDLE), AccountedCount(l);
      && LogInv(l') && AccountedCount(l') == n + 1 == |l'.tags| && LastUnfrozen(l'.tags) == n
  {
    var a := LogStep(l, TWO_IDLE[0]);
    var b := LogStep(a, TWO_IDLE[1]);
    assert TWO_IDLE[..1] == [TWO_IDLE[0]] && [TWO_IDLE[0]][..0] == [];
    assert LogRun(l, [TWO_IDLE[0]]) == a;
    assert LogRun(l, TWO_IDLE) == b;
  }

  lemma FramesShown(r: Receiver, base: seq<Shifted>, l: Log)
    requires ReceiverInv(r, base, l) && LogInv(l)
    ensures FramesIn(r.ana.published.counters) == (LastUnfrozen(l.tags[..AccountedCount(l)]) + 1) % W64
  {
    hide ReceiverInv;
    hide FramesIn;
    hide LastUnfrozen;
    hide Published;
    BaseIsLong(r, base, l);
    PublishedIs(r, base, l);
    FramesPublished(base, l.wire.done[..AccountedCount(l)], l.tags[..AccountedCount(l)]);
  }

  lemma {:induction false} FlightIsCounted(r: Receiver, base: seq<Shifted>, l: Log)
    requires ReceiverInv(r, base, l) && LogInv(l) && l.freeze && Capturing(l) && |l.wire.done| + 1 < W64
    ensures FramesIn(ReceiverRun(r, TWO_IDLE).ana.published.counters) != FramesIn(r.ana.published.counters)
  {
    hide ReceiverInv;
    hide ReceiverRun;
    hide FramesIn;
    hide LastUnfrozen;
    hide LogRun;
    hide Capturing;
    FlightEnds(l);
    ReceiverRunInv(r, base, l, TWO_IDLE);
    FramesShown(r, base, l);
    FramesShown(ReceiverRun(r, TWO_IDLE), base, LogRun(l, TWO_IDLE));
    var tags := LogRun(l, TWO_IDLE).tags;
    assert tags[..|tags|] == tags;
  }

  // ---- a latency on its way ----

  /** The next cycle shows it. */
  lemma {:induction false} PendingIsShown(r: Receiver, base: seq<Shifted>, l: Log)
    requires ReceiverInv(r, base, l) && LogInv(l) && r.ana.latency.updateRegs
    ensures var a, b := r.ana.latency, ReceiverRun(r, [FROZEN_IDLE]).ana.latency;
      b.lastReg == a.last && b.maxReg == Larger(a.last, a.max) && b.minReg == Smaller(a.last, a.min)
  {
    NotOvertaken(r, base, l);
    hide ReceiverInv;
    hide CheckStep;
    hide Analyze;
    hide Written;
    hide Larger;
    hide Smaller;
    assert [FROZEN_IDLE][..0] == [];
  }

  lemma TimedFrameIsPending(r: Receiver, base: seq<Shifted>, l: Log)
    requires ReceiverInv(r, base, l) && LogInv(l) && |base| >= 4 && l.wire.ended && Timed(base, l.wire.done)
    requires !l.tags[|l.tags| - 1].frozen
    ensures var a, b := r.ana.latency, ReceiverStep(r, FROZEN_IDLE).ana.latency;
      b.updateRegs && b.lastReg == a.lastReg && b.last == LatencyOf(base, l.wire.done, l.tags)
  {
    hide CheckStep;
    hide ParserInv;
    hide CountInv;
    hide BufferInv;
    hide Analyze;
    hide Written;
    hide ControlInv;
    hide HistoryInv;
    hide Latency;
    ReportsAgree(r, base, l);
    hide CheckInv;
    hide LatencyLogInv;
    hide ReportOn;
    hide Timed;
  }

  lemma ReportsAgree(r: Receiver, base: seq<Shifted>, l: Log)
    requires ReceiverInv(r, base, l) && LogInv(l) && |base| >= 4 && l.wire.ended && Timed(base, l.wire.done)
    ensures r.check.crcOk && r.parse.testframeMatch && r.parse.timestamp == ReportOn(base, l.wire.done).sent
  {
    ReportsAreTruthful(r, base, l.wire);
    hide ReceiverInv;
    hide Accepted;
    hide SequenceNumOf;
    hide TimestampOf;
  }

  /** How that comes about with no frame in flight: the freeze becomes visible in the cycle in
    which an unfrozen test frame is accounted for, and its latency is not the one shown. */
  lemma {:induction false} FreezeBeforeLatency(r: Receiver, base: seq<Shifted>, l: Log)
    requires ReceiverInv(r, base, l) && LogInv(l) && |base| >= 4 && l.freeze && l.wire.ended
    requires Timed(base, l.wire.done) && !l.tags[|l.tags| - 1].frozen
    requires LatencyOf(base, l.wire.done, l.tags) != r.ana.latency.lastReg
    ensures var r', l' := ReceiverStep(r, FROZEN_IDLE), LogStep(l, FROZEN_IDLE);
      ReceiverInv(r', base, l') && LogInv(l') && l'.freeze && !Capturing(l') && !LatencyShown(r'.ana.latency)
  {
    hide ReceiverInv;
    hide ReceiverStep;
    hide Timed;
    hide LatencyOf;
    ReceiverStepInv(r, base, l, FROZEN_IDLE);
    TimedFrameIsPending(r, base, l);
  }

  // ---- everything that can be read ----

  /** Nothing that arrives while the statistics are frozen changes what can be read. */
  ghost predicate ReadableKeeps(r: Receiver) {
    forall ins :: Running(ins) && Frozen(ins) ==> SameReadable(ReceiverRun(r, ins).ana, r.ana)
  }

  /** The program reads as soon as it has frozen the statistics. What it can read keeps still,
    whatever arrives, if and only if no unfrozen frame is in flight and no new latency is on
    its way into its copies. */
  lemma {:induction false} ReadableKeepsWhen(r: Receiver, base: seq<Shifted>, l: Log)
    requires ReceiverInv(r, base, l) && LogInv(l) && l.freeze && |l.wire.done| + 1 < W64
    ensures ReadableKeeps(r) <==> !Capturing(l) && LatencyShown(r.ana.latency)
  {
    hide ReceiverInv;
    hide LogInv;
    hide Capturing;
    hide ReceiverStep;
    if Capturing(l) {
      FlightIsCounted(r, base, l);
      assert Running(TWO_IDLE) && Frozen(TWO_IDLE);
    } else if !LatencyShown(r.ana.latency) {
      PendingIsShown(r, base, l);
      assert Running([FROZEN_IDLE]) && Frozen([FROZEN_IDLE]);
    } else {
      forall ins | Running(ins) && Frozen(ins)
        ensures SameReadable(ReceiverRun(r, ins).ana, r.ana)
      {
        NothingReadableChanges(r, base, l, ins);
      }
    }
  }

  // ---- runs of line and bus, made of reads and line cycles ----

  lemma {:induction false} LiveRunConcat(x: Live, flip: nat, es: seq<Edge>, fs: seq<Edge>)
    ensures LiveRun(x, flip, es + fs) == LiveRun(LiveRun(x, flip, es), flip, fs)
    ensures LegalEdges(x, flip, es) && LegalEdges(LiveRun(x, flip, es), flip, fs) ==> LegalEdges(x, flip, es + fs)
    decreases |fs|
  {
    hide LiveStep;
    hide LegalEdge;
    if fs == [] {
      assert es + fs == es;
    } else {
      var n := |fs| - 1;
      assert (es + fs)[..|es| + n] == es + fs[..n];
      LiveRunConcat(x, flip, es, fs[..n]);
    }
  }

  /** The three bus cycles of a read: the address, the access, the response. */
  function ReadBeats(addr: nat): seq<Edge> {
    [BusEdge(ReadBus(true, addr, false)), BusEdge(ReadBus(true, addr, false)), BusEdge(ReadBus(false, addr, true))]
  }

  /** Between two reads. */
  predicate BetweenReads(x: Live) {
    AtRest(x.end) && x.session.phase.Quiet?
  }

  lemma {:induction false} LiveRunOfThree(x: Live, flip: nat, a: Edge, b: Edge, c: Edge)
    ensures LiveRun(x, flip, [a, b, c]) == LiveStep(LiveStep(LiveStep(x, flip, a), flip, b), flip, c)
    ensures LegalEdge(x, a) && LegalEdge(LiveStep(x, flip, a), b)
         && LegalEdge(LiveStep(LiveStep(x, flip, a), flip, b), c)
         ==> LegalEdges(x, flip, [a, b, c])
  {
    hide LiveStep;
    hide LegalEdge;
    assert [a, b, c][..2] == [a, b] && [a, b][..1] == [a] && [a][..0] == [];
    assert LiveRun(x, flip, [a]) == LiveStep(x, flip, a);
    assert LiveRun(x, flip, [a, b]) == LiveStep(LiveStep(x, flip, a), flip, b);
    assert LegalEdge(x, a) ==> LegalEdges(x, flip, [a]);
    assert LegalEdge(x, a) && LegalEdge(LiveStep(x, flip, a), b) ==> LegalEdges(x, flip, [a, b]);
  }

  lemma OfferBeat(x: Live, flip: nat, addr: nat)
    requires BetweenReads(x)
    ensures var y := LiveStep(x, flip, ReadBeats(addr)[0]);
      && y.rx == x.rx && y.session == x.session.(phase := Asking(addr))
      && y.end == ReadEnd(true, addr, false, x.end.rdata, x.end.bufAddress, false, x.rx.ana.mem[x.end.bufAddress])
  {
    hide ReadMux;
  }

  lemma AccessBeat(x: Live, flip: nat, addr: nat)
    requires x.session.phase == Asking(addr) && x.end.arready && x.end.araddr == addr && !x.end.rvalid && !x.end.bufInc
    ensures var y := LiveStep(x, flip, ReadBeats(addr)[1]);
      && y.rx == x.rx && y.session == x.session.(phase := Awaiting, asked := x.session.asked + [addr])
      && y.end == ReadEnd(false, addr, true, ReadMux(RegisterFile(x.rx.ana, flip), x.end.bufData, addr),
                          if addr == FRAME_SIZE then 0 else x.end.bufAddress, addr == FRAME_BUF,
                          x.rx.ana.mem[x.end.bufAddress])
  {
    hide ReadMux;
  }

  lemma AnswerBeat(x: Live, flip: nat, addr: nat)
    requires x.session.phase == Awaiting && !x.end.arready && x.end.rvalid
    ensures var y := LiveStep(x, flip, ReadBeats(addr)[2]);
      && y.rx == x.rx && BetweenReads(y)
      && y.session == ReadSession(Quiet, x.session.asked, x.session.values + [x.end.rdata])
      && y.end.bufAddress == if x.end.bufInc then (x.end.bufAddress + 1) % 512 else x.end.bufAddress
  {
    hide ReadMux;
  }

  lemma {:induction false} LiveRead(x: Live, flip: nat, addr: nat)
    requires BetweenReads(x)
    ensures
      var y, answer := LiveRun(x, flip, ReadBeats(addr)), ReadOne(RegisterFile(x.rx.ana, flip), x.end.bufAddress, addr);
      && LegalEdges(x, flip, ReadBeats(addr)) && BetweenReads(y) && y.rx == x.rx
      && y.session == ReadSession(Quiet, x.session.asked + [addr], x.session.values + [answer.value])
      && y.end.bufAddress == answer.next
  {
    hide ReadMux;
    hide LiveRun;
    hide LiveStep;
    hide LegalEdges;
    var a, b, c := ReadBeats(addr)[0], ReadBeats(addr)[1], ReadBeats(addr)[2];
    LiveRunOfThree(x, flip, a, b, c);
    OfferBeat(x, flip, addr);
    AccessBeat(LiveStep(x, flip, a), flip, addr);
    AnswerBeat(LiveStep(LiveStep(x, flip, a), flip, b), flip, addr);
  }

  /** One read after the other. */
  function ReadEdges(asked: seq<nat>): seq<Edge> {
    if asked == [] then [] else ReadEdges(asked[..|asked| - 1]) + ReadBeats(asked[|asked| - 1])
  }

  /** What has become of x when the given addresses have been read. */
  ghost predicate HasRead(x: Live, flip: nat, asked: seq<nat>, y: Live) {
    var regs, next := RegisterFile(x.rx.ana, flip), x.end.bufAddress;
    && BetweenReads(y) && y.rx == x.rx && y.end.bufAddress == NextAfter(regs, next, asked)
    && y.session == ReadSession(Quiet, x.session.asked + asked, x.session.values + AllReads(regs, next, asked))
  }

  lemma NothingRead(x: Live, flip: nat)
    requires BetweenReads(x)
    ensures HasRead(x, flip, [], x)
  {
    assert x.session.asked + [] == x.session.asked && x.session.values + [] == x.session.values;
  }

  lemma {:induction false} OneMoreLiveRead(x: Live, flip: nat, asked: seq<nat>, addr: nat, y: Live)
    requires HasRead(x, flip, asked, y)
    ensures LegalEdges(y, flip, ReadBeats(addr))
    ensures HasRead(x, flip, asked + [addr], LiveRun(y, flip, ReadBeats(addr)))
  {
    hide BetweenReads;
    hide ReadBeats;
    hide ReadOne;
    hide NextAfter;
    hide AllReads;
    hide LiveRun;
    var regs, next := RegisterFile(x.rx.ana, flip), x.end.bufAddress;
    LiveRead(y, flip, addr);
    OneMoreRead(regs, next, asked, addr);
    var v := ReadOne(regs, y.end.bufAddress, addr).value;
    assert x.session.asked + asked + [addr] == x.session.asked + (asked + [addr]);
    var values := AllReads(regs, next, asked);
    assert x.session.values + values + [v] == x.session.values + (values + [v]);
  }

  lemma {:induction false} LiveReads(x: Live, flip: nat, asked: seq<nat>)
    requires BetweenReads(x)
    ensures LegalEdges(x, flip, ReadEdges(asked)) && HasRead(x, flip, asked, LiveRun(x, flip, ReadEdges(asked)))
    decreases |asked|
  {
    hide BetweenReads;
    hide HasRead;
    hide ReadBeats;
    if asked == [] {
      NothingRead(x, flip);
    } else {
      var n := |asked| - 1;
      LiveReads(x, flip, asked[..n]);
      OneMoreLiveRead(x, flip, asked[..n], asked[n], LiveRun(x, flip, ReadEdges(asked[..n])));
      LiveRunConcat(x, flip, ReadEdges(asked[..n]), ReadBeats(asked[n]));
      assert asked == asked[..n] + [asked[n]];
    }
  }

  function LineEdges(ins: seq<Input>): seq<Edge> {
    if ins == [] then [] else LineEdges(ins[..|ins| - 1]) + [LineEdge(ins[|ins| - 1])]
  }

  lemma {:induction false} LiveLine(x: Live, flip: nat, ins: seq<Input>)
    requires Running(ins) && Frozen(ins)
    ensures LegalEdges(x, flip, LineEdges(ins))
    ensures LiveRun(x, flip, LineEdges(ins)) == x.(rx := ReceiverRun(x.rx, ins))
  {
    hide ReceiverStep;
    if ins != [] {
      var n := |ins| - 1;
      LiveLine(x, flip, ins[..n]);
      assert LineEdges(ins)[..|LineEdges(ins[..n])|] == LineEdges(ins[..n]);
    }
  }

  /** Some reads, then some cycles of the line, then more reads. */
  function Interrupted(p: seq<nat>, ins: seq<Input>, q: seq<nat>): seq<Edge> {
    ReadEdges(p) + LineEdges(ins) + ReadEdges(q)
  }

  /** The values come from the registers before and after. */
  lemma {:induction false} InterruptedReads(x: Live, flip: nat, p: seq<nat>, ins: seq<Input>, q: seq<nat>)
    requires BetweenReads(x) && x.session == NO_READS && Running(ins) && Frozen(ins)
    ensures LegalEdges(x, flip, Interrupted(p, ins, q))
    ensures
      var before, next := RegisterFile(x.rx.ana, flip), x.end.bufAddress;
      var after := RegisterFile(ReceiverRun(x.rx, ins).ana, flip);
      LiveRun(x, flip, Interrupted(p, ins, q)).session
        == ReadSession(Quiet, p + q, AllReads(before, next, p) + AllReads(after, NextAfter(before, next, p), q))
  {
    hide BetweenReads;
    hide ReadEdges;
    hide LineEdges;
    hide AllReads;
    hide NextAfter;
    hide ReceiverRun;
    hide LiveRun;
    hide LegalEdges;
    var y := LiveRun(x, flip, ReadEdges(p));
    var z := y.(rx := ReceiverRun(x.rx, ins));
    LiveReads(x, flip, p);
    LiveLine(y, flip, ins);
    LiveRunConcat(x, flip, ReadEdges(p), LineEdges(ins));
    StillBetween(y, z);
    LiveReads(z, flip, q);
    LiveRunConcat(x, flip, ReadEdges(p) + LineEdges(ins), ReadEdges(q));
    assert [] + p == p;
    var values := AllReads(RegisterFile(x.rx.ana, flip), x.end.bufAddress, p);
    assert [] + values == values;
  }

  lemma StillBetween(y: Live, z: Live)
    requires BetweenReads(y) && z == y.(rx := z.rx)
    ensures BetweenReads(z)
  {
  }

  // ---- values that no state has ----

  /** A register that is not read through the frame buffer. */
  predicate Plain(addr: nat) {
    addr != FRAME_BUF && addr != FRAME_SIZE
  }

  function ValueAt(regs: RegisterFile, addr: nat): nat {
    ReadMux(regs, Word(0, 0, 0, 0), addr)
  }

  lemma PlainRead(regs: RegisterFile, next: Address, addr: nat)
    requires Plain(addr)
    ensures ReadOne(regs, next, addr) == Answer(ValueAt(regs, addr), next)
  {
    hide WideAt;
    hide NarrowAt;
  }

  lemma {:induction false} PlainReads(regs: RegisterFile, next: Address, addr: nat, more: nat)
    requires Plain(addr) && Plain(more)
    ensures NextAfter(regs, next, [addr]) == next && AllReads(regs, next, [addr]) == [ValueAt(regs, addr)]
    ensures NextAfter(regs, next, [addr, more]) == next
    ensures AllReads(regs, next, [addr, more]) == [ValueAt(regs, addr), ValueAt(regs, more)]
  {
    hide ReadOne;
    hide ValueAt;
    hide Plain;
    PlainRead(regs, next, addr);
    PlainRead(regs, next, more);
    OneMoreRead(regs, next, [], addr);
    OneMoreRead(regs, next, [addr], more);
    assert [] + [addr] == [addr] && [addr] + [more] == [addr, more];
  }

  lemma {:induction false} ReadsConcat(regs: RegisterFile, next: Address, p: seq<nat>, q: seq<nat>)
    ensures NextAfter(regs, next, p + q) == NextAfter(regs, NextAfter(regs, next, p), q)
    ensures AllReads(regs, next, p + q) == AllReads(regs, next, p) + AllReads(regs, NextAfter(regs, next, p), q)
    decreases |q|
  {
    hide ReadOne;
    if q == [] {
      assert p + q == p;
    } else {
      var n := |q| - 1;
      assert (p + q)[..|p| + n] == p + q[..n];
      ReadsConcat(regs, next, p, q[..n]);
    }
  }

  /** The values that have been read are those of some register file. */
  ghost predicate OfOneFile(s: ReadSession, next: Address) {
    |s.values| <= |s.asked| && exists regs :: s.values == AllReads(regs, next, s.asked)[..|s.values|]
  }

  /** Whatever arrives and however the reads are timed. */
  ghost predicate ReadsAgree(x: Live, flip: nat) {
    forall es :: LegalEdges(x, flip, es) ==> OfOneFile(LiveRun(x, flip, es).session, x.end.bufAddress)
  }

  /** A register that was read twice, with different values, is not of any register file. */
  lemma {:induction false} TwiceIsTorn(x: Live, flip: nat, ins: seq<Input>, addr: nat)
    requires BetweenReads(x) && x.session == NO_READS && Running(ins) && Frozen(ins) && Plain(addr)
    requires ValueAt(RegisterFile(x.rx.ana, flip), addr)
          != ValueAt(RegisterFile(ReceiverRun(x.rx, ins).ana, flip), addr)
    ensures !ReadsAgree(x, flip)
  {
    hide ValueAt;
    hide AllReads;
    hide NextAfter;
    hide LiveRun;
    hide LegalEdges;
    hide Interrupted;
    hide BetweenReads;
    hide ReceiverRun;
    hide Plain;
    var before, after := RegisterFile(x.rx.ana, flip), RegisterFile(ReceiverRun(x.rx, ins).ana, flip);
    var next, s := x.end.bufAddress, LiveRun(x, flip, Interrupted([addr], ins, [addr])).session;
    InterruptedReads(x, flip, [addr], ins, [addr]);
    PlainReads(before, next, addr, addr);
    PlainReads(after, next, addr, addr);
    assert [addr] + [addr] == [addr, addr] == s.asked;
    assert s.values == [ValueAt(before, addr), ValueAt(after, addr)];
    forall regs: RegisterFile
      ensures s.values != AllReads(regs, next, s.asked)[..|s.values|]
    {
      PlainReads(regs, next, addr, addr);
      assert AllReads(regs, next, s.asked)[..2] == [ValueAt(regs, addr), ValueAt(regs, addr)];
    }
    assert !OfOneFile(s, next);
  }

  lemma WideReads(regs: RegisterFile, w: Wide)
    ensures Plain(WideAddress(w)) && Plain(WideAddress(w) + 4)
    ensures ValueAt(regs, WideAddress(w)) * W32 + ValueAt(regs, WideAddress(w) + 4) == WideValue(regs.ana, w) % W64
  {
    hide WideValue;
    Halves(WideValue(regs.ana, w));
  }

  lemma NarrowReads(regs: RegisterFile, n: Narrow)
    ensures n != FrameSize ==> Plain(NarrowAddress(n))
    ensures ValueAt(regs, NarrowAddress(n)) == NarrowValue(regs.ana, n) % W32
  {
    hide NarrowValue;
  }

  /** If all reads agree, no register that can be read is about to change. */
  lemma {:induction false} RegistersAgree(x: Live, flip: nat, ins: seq<Input>, w: Wide, n: Narrow)
    requires BetweenReads(x) && x.session == NO_READS && Running(ins) && Frozen(ins) && n != FrameSize
    requires ReadsAgree(x, flip)
    ensures WideValue(ReceiverRun(x.rx, ins).ana, w) % W64 == WideValue(x.rx.ana, w) % W64
    ensures NarrowValue(ReceiverRun(x.rx, ins).ana, n) % W32 == NarrowValue(x.rx.ana, n) % W32
  {
    hide ReadsAgree;
    hide ValueAt;
    hide WideAddress;
    hide NarrowAddress;
    hide WideValue;
    hide NarrowValue;
    hide BetweenReads;
    hide Plain;
    var before, after := RegisterFile(x.rx.ana, flip), RegisterFile(ReceiverRun(x.rx, ins).ana, flip);
    WideReads(before, w);
    WideReads(after, w);
    NarrowReads(before, n);
    NarrowReads(after, n);
    if ValueAt(before, WideAddress(w)) != ValueAt(after, WideAddress(w)) {
      TwiceIsTorn(x, flip, ins, WideAddress(w));
    }
    if ValueAt(before, WideAddress(w) + 4) != ValueAt(after, WideAddress(w) + 4) {
      TwiceIsTorn(x, flip, ins, WideAddress(w) + 4);
    }
    if ValueAt(before, NarrowAddress(n)) != ValueAt(after, NarrowAddress(n)) {
      TwiceIsTorn(x, flip, ins, NarrowAddress(n));
    }
  }

  /** If all reads agree, no frame is about to be published. */
  lemma {:induction false} AgreeingFrames(x: Live, flip: nat, ins: seq<Input>)
    requires BetweenReads(x) && x.session == NO_READS && Running(ins) && Frozen(ins) && ReadsAgree(x, flip)
    ensures FramesIn(ReceiverRun(x.rx, ins).ana.published.counters) == FramesIn(x.rx.ana.published.counters)
  {
    hide ReadsAgree;
    hide BetweenReads;
    hide ReceiverRun;
    RegistersAgree(x, flip, ins, Pkts, LatencyNsec);
    RegistersAgree(x, flip, ins, BadCrcPkts, LatencyNsec);
    RegistersAgree(x, flip, ins, BadPreamblePkts, LatencyNsec);
  }

  // ---- the latency copies hold what can be read of them ----

  predicate Fits(t: Time) {
    t.sec < W48 && t.nsec < W32
  }

  predicate AllFit(e: Extremes) {
    Fits(e.last) && Fits(e.min) && Fits(e.max)
  }

  lemma {:induction false} LatenciesFit(base: seq<Shifted>, frames: seq<seq<Octet>>, tags: seq<Tag>)
    requires |base| >= 4 && |frames| == |tags|
    ensures AllFit(Latencies(base, frames, tags)) && AllFit(PublishedLatencies(base, frames, tags))
    decreases |frames|
  {
    hide Timed;
    hide ReportOn;
    if frames != [] {
      var n := |frames| - 1;
      LatenciesFit(base, frames[..n], tags[..n]);
    }
  }

  lemma {:induction false} CopiesFit(r: Receiver, base: seq<Shifted>, l: Log)
    requires ReceiverInv(r, base, l) && LogInv(l)
    ensures var a := r.ana.latency;
      && Fits(a.last) && Fits(Larger(a.last, a.max)) && Fits(Smaller(a.last, a.min))
      && Fits(a.lastReg) && Fits(a.maxReg) && Fits(a.minReg)
  {
    BaseIsLong(r, base, l);
    hide CheckInv;
    hide ParserInv;
    hide FrameInv;
    hide CountInv;
    hide BufferInv;
    hide Latencies;
    hide PublishedLatencies;
    hide Timed;
    hide Fits;
    var m := AccountedCount(l);
    var frames, tags := l.wire.done[..m], l.tags[..m];
    LatenciesFit(base, frames, tags);
    if frames != [] {
      LatenciesFit(base, frames[..m - 1], tags[..m - 1]);
    }
  }

  lemma SameTime(a: Time, b: Time)
    requires Fits(a) && Fits(b) && a.sec % W64 == b.sec % W64 && a.nsec % W32 == b.nsec % W32
    ensures a == b
  {
  }

  /** If all reads agree, no latency is about to change. */
  lemma {:induction false} AgreeingLatencies(x: Live, flip: nat, base: seq<Shifted>, l: Log)
    requires BetweenReads(x) && x.session == NO_READS && ReadsAgree(x, flip)
    requires ReceiverInv(x.rx, base, l) && LogInv(l)
    ensures LatencyShown(x.rx.ana.latency)
  {
    hide ReadsAgree;
    hide BetweenReads;
    hide ReceiverRun;
    hide ReceiverInv;
    hide Larger;
    hide Smaller;
    hide Fits;
    if x.rx.ana.latency.updateRegs {
      var ins := [FROZEN_IDLE];
      PendingIsShown(x.rx, base, l);
      CopiesFit(x.rx, base, l);
      RegistersAgree(x, flip, ins, LatencySec, LatencyNsec);
      RegistersAgree(x, flip, ins, LatencyMinSec, LatencyMinNsec);
      RegistersAgree(x, flip, ins, LatencyMaxSec, LatencyMaxNsec);
      var a, b := x.rx.ana.latency, ReceiverRun(x.rx, ins).ana.latency;
      SameTime(a.lastReg, b.lastReg);
      SameTime(a.minReg, b.minReg);
      SameTime(a.maxReg, b.maxReg);
    }
  }

  lemma {:induction false} AgreeingFlight(x: Live, flip: nat, base: seq<Shifted>, l: Log)
    requires BetweenReads(x) && x.session == NO_READS && ReadsAgree(x, flip)
    requires ReceiverInv(x.rx, base, l) && LogInv(l) && l.freeze && |l.wire.done| + 1 < W64
    ensures !Capturing(l)
  {
    hide ReadsAgree;
    hide BetweenReads;
    hide ReceiverRun;
    hide ReceiverInv;
    hide FramesIn;
    hide Capturing;
    hide LogInv;
    if Capturing(l) {
      AgreeingFrames(x, flip, TWO_IDLE);
      FlightIsCounted(x.rx, base, l);
    }
  }

  /** Right after the freeze bit is visible, everything the processor reads is of one register
    file - however it times its reads, and whatever arrives between them - if and only if no
    unfrozen frame is in flight and no new latency is on its way into its copies. */
  lemma {:induction false} ReadOutIsOfOneState(x: Live, flip: nat, base: seq<Shifted>, l: Log)
    requires BetweenReads(x) && x.session == NO_READS
    requires ReceiverInv(x.rx, base, l) && LogInv(l) && l.freeze && |l.wire.done| + 1 < W64
    ensures ReadsAgree(x, flip) <==> !Capturing(l) && LatencyShown(x.rx.ana.latency)
  {
    hide ReceiverInv;
    hide LogInv;
    hide Capturing;
    hide LatencyShown;
    hide LiveRun;
    hide LegalEdges;
    hide AllReads;
    if ReadsAgree(x, flip) {
      AgreeingFlight(x, flip, base, l);
      AgreeingLatencies(x, flip, base, l);
    } else if !Capturing(l) && LatencyShown(x.rx.ana.latency) {
      forall es | LegalEdges(x, flip, es)
        ensures OfOneFile(LiveRun(x, flip, es).session, x.end.bufAddress)
      {
        ReadsAreOfOneState(x, flip, base, l, es);
      }
    }
  }

  // ---- what the program prints then ----

  /** The program reads the packets first and the octets next, both words of each. */
  function BothWords(w: Wide): seq<nat> {
    [WideAddress(w), WideAddress(w) + 4]
  }

  lemma {:induction false} ReadsOfBothWords(regs: RegisterFile, next: Address, w: Wide)
    ensures NextAfter(regs, next, BothWords(w)) == next
    ensures AllReads(regs, next, BothWords(w)) == [ValueAt(regs, WideAddress(w)), ValueAt(regs, WideAddress(w) + 4)]
  {
    hide ValueAt;
    hide WideAddress;
    hide AllReads;
    hide NextAfter;
    hide Plain;
    WideReads(regs, w);
    PlainReads(regs, next, WideAddress(w), WideAddress(w) + 4);
  }

  lemma {:induction false} OtherWords(a: RegisterFile, b: RegisterFile, next: Address, w: Wide)
    requires WideValue(a.ana, w) % W64 != WideValue(b.ana, w) % W64
    ensures AllReads(a, next, BothWords(w)) != AllReads(b, next, BothWords(w))
  {
    hide ValueAt;
    hide WideAddress;
    hide WideValue;
    WideReads(a, w);
    WideReads(b, w);
    ReadsOfBothWords(a, next, w);
    ReadsOfBothWords(b, next, w);
  }

  lemma OctetsBelow(f: seq<Octet>, k: Kind)
    ensures Octets32(f, k) < W32
  {
  }

  /** Counts only grow, and the last frame adds to them. */
  lemma {:induction false} KindGrows(base: seq<Shifted>, frames: seq<seq<Octet>>, m: nat, k: Kind)
    requires |base| >= 4 && m <= |frames|
    ensures FramesOfKind(base, frames[..m], k) <= FramesOfKind(base, frames, k) <= |frames|
    ensures OctetsOfKind(base, frames[..m], k) <= OctetsOfKind(base, frames, k) <= |frames| * W32
    decreases |frames|
  {
    hide KindOf;
    hide Octets32;
    if frames == [] {
      assert frames[..m] == frames;
    } else {
      var n := |frames| - 1;
      OctetsBelow(frames[n], k);
      if m == |frames| {
        assert frames[..m] == frames;
        KindGrows(base, frames[..n], n, k);
      } else {
        KindGrows(base, frames[..n], m, k);
        assert frames[..n][..m] == frames[..m];
      }
    }
  }

  lemma {:induction false} GoodGrows(base: seq<Shifted>, frames: seq<seq<Octet>>, m: nat)
    requires |base| >= 4 && m < |frames|
    requires KindOf(base, frames) == Good && Octets32(frames[|frames| - 1], Good) > 0
    ensures FramesOfKind(base, frames[..m], Good) < FramesOfKind(base, frames, Good) <= |frames|
    ensures OctetsOfKind(base, frames[..m], Good) < OctetsOfKind(base, frames, Good) <= |frames| * W32
  {
    hide KindOf;
    hide Octets32;
    var n := |frames| - 1;
    assert frames[..n][..m] == frames[..m];
    KindGrows(base, frames[..n], m, Good);
    OctetsBelow(frames[n], Good);
  }

  lemma Distinct(a: nat, b: nat)
    requires a < b < W64
    ensures a % W64 != b % W64 && a % W64 % W64 != b % W64 % W64
  {
  }

  /** One more good frame with octets changes both counters of good frames. */
  lemma {:induction false} GoodFrameCounts(base: seq<Shifted>, frames: seq<seq<Octet>>, tags: seq<Tag>, m: nat)
    requires |base| >= 4 && m < |frames| == |tags| < W32
    requires KindOf(base, frames) == Good && Octets32(frames[|frames| - 1], Good) > 0
    ensures var c, d := Tally(base, frames[..m], tags[..m]).counters, Tally(base, frames, tags).counters;
      c.pkts % W64 != d.pkts % W64 && c.octets % W64 != d.octets % W64
  {
    hide KindOf;
    hide Octets32;
    hide Tally;
    hide FramesOfKind;
    hide OctetsOfKind;
    hide CountedTestframes;
    GoodGrows(base, frames, m);
    TallyCounts(base, frames[..m], tags[..m], Good);
    TallyCounts(base, frames, tags, Good);
    Distinct(FramesOfKind(base, frames[..m], Good), FramesOfKind(base, frames, Good));
    Distinct(OctetsOfKind(base, frames[..m], Good), OctetsOfKind(base, frames, Good));
  }

  lemma {:induction false} GoodFlightCounts(r: Receiver, base: seq<Shifted>, l: Log)
    requires ReceiverInv(r, base, l) && LogInv(l) && l.freeze && Capturing(l) && |l.wire.done| + 1 < W32
    requires |base| >= 4
    requires var frames := LogRun(l, TWO_IDLE).wire.done;
      frames != [] && KindOf(base, frames) == Good && Octets32(frames[|frames| - 1], Good) > 0
    ensures var c, d := r.ana.published.counters, ReceiverRun(r, TWO_IDLE).ana.published.counters;
      c.pkts % W64 != d.pkts % W64 && c.octets % W64 != d.octets % W64
  {
    hide ReceiverInv;
    hide ReceiverRun;
    hide LogRun;
    hide LastUnfrozen;
    hide Capturing;
    hide Tally;
    hide Published;
    hide KindOf;
    hide Octets32;
    var l', n := LogRun(l, TWO_IDLE), AccountedCount(l);
    FlightEnds(l);
    FlightKeepsRest(l);
    ReceiverRunInv(r, base, l, TWO_IDLE);
    PublishedIs(r, base, l);
    PublishedIs(ReceiverRun(r, TWO_IDLE), base, l');
    var frames, tags := l'.wire.done, l'.tags;
    assert frames[..n + 1] == frames && tags[..n + 1] == tags;
    assert l.wire.done[..n] == frames[..n] && l.tags[..n] == tags[..n];
    PublishedIsLastUnfrozen(base, frames, tags);
    PublishedIsLastUnfrozen(base, frames[..n], tags[..n]);
    var u := LastUnfrozen(tags[..n]);
    assert frames[..n][..u + 1] == frames[..u + 1] && tags[..n][..u + 1] == tags[..u + 1];
    NothingTallied(base);
    assert frames[..0] == [] && tags[..0] == [];
    GoodFrameCounts(base, frames, tags, u + 1);
  }

  lemma {:induction false} NothingTallied(base: seq<Shifted>)
    requires |base| >= 4
    ensures Tally(base, [], []).counters == ZERO
  {
  }

  lemma {:induction false} FlightKeepsRest(l: Log)
    requires LogInv(l) && l.freeze && Capturing(l)
    ensures var l', n := LogRun(l, TWO_IDLE), AccountedCount(l);
      && |l'.wire.done| == |l'.tags| == n + 1 <= |l.wire.done| + 1
      && l'.wire.done[..n] == l.wire.done[..n] && l'.tags[..n] == l.tags[..n]
  {
    FlightEnds(l);
    OneFrameInFlight(l, TWO_IDLE);
  }

  /** The read-out of the program: if the frame in flight is a good one with octets and ends
    between the reads of the packets and of the octets, the packets are those without it and
    the octets those with it, as they are at no time. */
  lemma {:induction false} ProgramTearsCounters(x: Live, flip: nat, base: seq<Shifted>, l: Log)
    requires BetweenReads(x) && x.session == NO_READS && |base| >= 4
    requires ReceiverInv(x.rx, base, l) && LogInv(l) && l.freeze && Capturing(l) && |l.wire.done| + 1 < W32
    requires var frames := LogRun(l, TWO_IDLE).wire.done;
      frames != [] && KindOf(base, frames) == Good && Octets32(frames[|frames| - 1], Good) > 0
    ensures
      var es, next := Interrupted(BothWords(Pkts), TWO_IDLE, BothWords(Octets64)), x.end.bufAddress;
      var before, after := RegisterFile(x.rx.ana, flip), RegisterFile(ReceiverRun(x.rx, TWO_IDLE).ana, flip);
      var s := LiveRun(x, flip, es).session;
      && LegalEdges(x, flip, es) && s.asked == BothWords(Pkts) + BothWords(Octets64)
      && s.values == AllReads(before, next, BothWords(Pkts)) + AllReads(after, next, BothWords(Octets64))
      && s.values != AllReads(before, next, s.asked) && s.values != AllReads(after, next, s.asked)
  {
    hide ReceiverInv;
    hide LogInv;
    hide Capturing;
    hide KindOf;
    hide Octets32;
    hide LogRun;
    hide ReceiverRun;
    hide BothWords;
    hide AllReads;
    hide NextAfter;
    hide BetweenReads;
    hide LiveRun;
    hide LegalEdges;
    hide Interrupted;
    var p, q, next := BothWords(Pkts), BothWords(Octets64), x.end.bufAddress;
    var before, after := RegisterFile(x.rx.ana, flip), RegisterFile(ReceiverRun(x.rx, TWO_IDLE).ana, flip);
    GoodFlightCounts(x.rx, base, l);
    InterruptedReads(x, flip, p, TWO_IDLE, q);
    ReadsOfBothWords(before, next, Pkts);
    ReadsOfBothWords(after, next, Pkts);
    OtherWords(before, after, next, Pkts);
    OtherWords(before, after, next, Octets64);
    ReadsConcat(before, next, p, q);
    ReadsConcat(after, next, p, q);
    hide ValueAt;
    OtherParts(AllReads(before, next, p), AllReads(before, next, q),
               AllReads(after, next, p), AllReads(after, next, q));
  }

  lemma OtherParts<T>(a: seq<T>, b: seq<T>, c: seq<T>, d: seq<T>)
    requires |a| == |c| && |b| == |d| && a != c && b != d
    ensures a + d != a + b && a + d != c + d
  {
    assert (a + d)[|a|..] == d && (a + b)[|a|..] == b;
    assert (a + d)[..|a|] == a && (c + d)[..|c|] == c;
  }
}
