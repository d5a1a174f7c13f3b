/** An analyzer that is switched on in the middle of a frame. */
module LateStart {
  import opened Arithmetic
  import opened Octets
  import opened Gmii
  import opened BramIo
  import opened CrcCheck
  import opened TestframeParser
  import opened TrafficAnalyzer
  import opened Receiver
  import opened ReceiverRuns

  /** The run bit has just become visible, and nothing has been counted. */
  predicate SwitchedOn(a: AnalyzerRegs) {
    a.run && a.state == 0 && !a.frameComplete && a.counters == ZERO && a.expected == 0
  }

  /** While the bit is clear everything is cleared in every cycle. */
  lemma SwitchOn(a: AnalyzerRegs, i: Input, p: Report)
    requires !a.run && i.run
    ensures SwitchedOn(AnalyzeStep(a, false, i, p))
  {
    hide LatencyStep;
    hide Written;
  }

  function OctetsIn(ins: seq<Input>): (s: seq<Octet>)
    ensures |s| == |ins|
  {
    seq(|ins|, i requires 0 <= i < |ins| => ins[i].line.d)
  }

  predicate Busy(ins: seq<Input>) {
    forall i :: 0 <= i < |ins| ==> ins[i].line.en && ins[i].run
  }

  /** Part of a frame has arrived since: the analyzer knows the size of that part, and how many
    of the data octets came after its first octet. */
  ghost predicate Joined(r: Receiver, base: seq<Shifted>, w: Wire, head: seq<Octet>, part: seq<Octet>, stamp: Time) {
    && CheckInv(r.check, base, w) && ParserInv(r.parse, w) && part != [] && w.cur == head + part
    && r.ana.run && r.ana.state == 1 && !r.ana.frameComplete && r.ana.counters == ZERO && r.ana.expected == 0
    && r.ana.timestamp == stamp && r.ana.frameSize == (|part| - 1) % W32
    && r.ana.l2FrameSize == DataSince(head, part) % W32
  }

  /** The data octets of a frame, head and part, that come after the first octet of the part. */
  function DataSince(head: seq<Octet>, part: seq<Octet>): int
    requires part != []
  {
    |Data(head + part)| - |Data(head + part[..1])|
  }

  lemma FirstOfPart(r: Receiver, base: seq<Shifted>, w: Wire, i: Input)
    requires CheckInv(r.check, base, w) && ParserInv(r.parse, w) && SwitchedOn(r.ana) && i.line.en && i.run
    ensures Joined(ReceiverStep(r, i), base, WireStep(w, i.line), w.cur, [i.line.d], i.now)
  {
    hide CheckInv;
    hide ParserInv;
    hide CheckStep;
    hide ParseStep;
    hide LatencyStep;
    hide Written;
    hide Data;
    CheckStepInv(r.check, base, w, i.line);
    ParseStepInv(r.parse, w, i.line);
    assert [i.line.d][..1] == [i.line.d];
  }

  lemma NextOfPart(r: Receiver, base: seq<Shifted>, w: Wire, head: seq<Octet>, part: seq<Octet>, stamp: Time, i: Input)
    requires Joined(r, base, w, head, part, stamp) && i.line.en && i.run
    ensures Joined(ReceiverStep(r, i), base, WireStep(w, i.line), head, part + [i.line.d], stamp)
  {
    hide CheckInv;
    hide ParserInv;
    hide CheckStep;
    hide ParseStep;
    hide AnalyzeStep;
    hide ReportOn;
    hide Data;
    hide GoodPreamble;
    CheckStepInv(r.check, base, w, i.line);
    ParseStepInv(r.parse, w, i.line);
    ReportsAreTruthful(r, base, w);
    NextOctet(r.ana, i, ReportOf(r));
    NothingCounted(r.ana, i, ReportOf(r));
    OneMoreData(w.cur, i.line.d);
    assert (part + [i.line.d])[..1] == part[..1];
    assert head + (part + [i.line.d]) == w.cur + [i.line.d];
    WrapOneMore(|part| - 1);
    WrapOneMore(DataSince(head, part));
  }

  lemma NothingCounted(a: AnalyzerRegs, i: Input, p: Report)
    requires a.run && a.state == 1
    ensures var b := AnalyzeStep(a, false, i, p); b.counters == a.counters && b.expected == a.expected
  {
    hide LatencyStep;
    hide Written;
    hide WithLane;
    hide Add64;
  }

  /** The frame has ended, and is accounted for next. */
  ghost predicate JoinedEnded(r: Receiver, base: seq<Shifted>, w: Wire, head: seq<Octet>, part: seq<Octet>,
                              stamp: Time)
  {
    && CheckInv(r.check, base, w) && ParserInv(r.parse, w) && part != []
    && w.ended && w.done != [] && w.done[|w.done| - 1] == head + part
    && r.ana.run && r.ana.state == 0 && r.ana.frameComplete && r.ana.counters == ZERO && r.ana.expected == 0
    && r.ana.timestamp == stamp && r.ana.frameSize == |part| % W32
    && r.ana.l2FrameSize == DataSince(head, part) % W32
  }

  lemma EndOfFrame(a: AnalyzerRegs, i: Input, p: Report)
    requires a.run && a.state == 1 && !i.line.en && i.run
    ensures var b := AnalyzeStep(a, false, i, p);
      && b.run && b.state == 0 && b.frameComplete && b.counters == a.counters && b.expected == a.expected
      && b.timestamp == a.timestamp && b.frameSize == (a.frameSize + 1) % W32 && b.l2FrameSize == a.l2FrameSize
  {
    hide LatencyStep;
    hide Written;
    hide WithLane;
    hide Add64;
  }

  lemma EndOfPart(r: Receiver, base: seq<Shifted>, w: Wire, head: seq<Octet>, part: seq<Octet>, stamp: Time, i: Input)
    requires Joined(r, base, w, head, part, stamp) && !i.line.en && i.run
    ensures JoinedEnded(ReceiverStep(r, i), base, WireStep(w, i.line), head, part, stamp)
  {
    hide CheckInv;
    hide ParserInv;
    hide CheckStep;
    hide ParseStep;
    hide AnalyzeStep;
    hide Data;
    CheckStepInv(r.check, base, w, i.line);
    ParseStepInv(r.parse, w, i.line);
    EndOfFrame(r.ana, i, ReportOf(r));
    WrapOneMore(|part| - 1);
  }

  lemma AccountingEdge(a: AnalyzerRegs, i: Input, p: Report)
    requires a.run && a.state == 0 && a.frameComplete
    ensures var b := AnalyzeStep(a, false, i, p);
      Book(b.counters, b.expected)
        == Account(Book(a.counters, a.expected), p, a.frameSize, a.l2FrameSize, a.timestamp)
  {
    hide LatencyStep;
    hide Written;
    hide Add64;
    hide Account;
  }

  lemma {:induction false} PartAccounted(r: Receiver, base: seq<Shifted>, w: Wire, head: seq<Octet>, part: seq<Octet>,
                                         stamp: Time, i: Input)
    requires JoinedEnded(r, base, w, head, part, stamp) && |base| >= 4
    ensures var a := ReceiverStep(r, i).ana;
      Book(a.counters, a.expected)
        == Account(Book(ZERO, 0), ReportOn(base, w.done), |part| % W32, DataSince(head, part) % W32, stamp)
  {
    hide CheckInv;
    hide ParserInv;
    hide CheckStep;
    hide ParseStep;
    hide AnalyzeStep;
    hide Account;
    hide ReportOn;
    hide DataSince;
    ReportsAreTruthful(r, base, w);
    AccountingEdge(r.ana, i, ReportOf(r));
    AccountAgrees(Book(ZERO, 0), ReportOf(r), ReportOn(base, w.done), r.ana.frameSize, r.ana.l2FrameSize, stamp);
  }

  function LineIn(ins: seq<Input>): (cs: seq<Cycle>)
    ensures |cs| == |ins|
  {
    seq(|ins|, i requires 0 <= i < |ins| => ins[i].line)
  }

  lemma {:induction false} PartArrives(r: Receiver, base: seq<Shifted>, w: Wire, ins: seq<Input>)
    requires CheckInv(r.check, base, w) && ParserInv(r.parse, w) && SwitchedOn(r.ana) && Busy(ins) && ins != []
    ensures Joined(ReceiverRun(r, ins), base, WireRun(w, LineIn(ins)), w.cur, OctetsIn(ins), ins[0].now)
    decreases |ins|
  {
    hide CheckInv;
    hide ParserInv;
    hide Joined;
    hide SwitchedOn;
    hide ReceiverStep;
    hide WireStep;
    var n := |ins| - 1;
    assert LineIn(ins)[..n] == LineIn(ins[..n]) && LineIn(ins)[n] == ins[n].line;
    if n == 0 {
      assert ins[..0] == [] && LineIn([]) == [] && OctetsIn(ins) == [ins[0].line.d];
      FirstOfPart(r, base, w, ins[0]);
    } else {
      PartArrives(r, base, w, ins[..n]);
      assert OctetsIn(ins) == OctetsIn(ins[..n]) + [ins[n].line.d];
      NextOfPart(ReceiverRun(r, ins[..n]), base, WireRun(w, LineIn(ins[..n])), w.cur, OctetsIn(ins[..n]), ins[0].now,
                 ins[n]);
    }
  }

  /** Switched on when `w.cur` of a frame has gone by, the analyzer judges the whole frame by its
    checker and its parser, which are never switched off, and counts the rest of it: its
    octets if the preamble is bad, otherwise the data octets after the first one it saw. */
  lemma {:induction false} LateStartCountsRest(r: Receiver, base: seq<Shifted>, w: Wire, rest: seq<Input>,
                                               idle: Input, next: Input)
    requires CheckInv(r.check, base, w) && ParserInv(r.parse, w) && |base| >= 4 && SwitchedOn(r.ana)
    requires Busy(rest) && rest != [] && !idle.line.en && idle.run
    ensures
      var a, part := ReceiverRun(r, rest + [idle] + [next]).ana, OctetsIn(rest);
      Book(a.counters, a.expected)
        == Account(Book(ZERO, 0), ReportOn(base, w.done + [w.cur + part]), |part| % W32, DataSince(w.cur, part) % W32,
                   rest[0].now)
  {
    hide CheckInv;
    hide ParserInv;
    hide SwitchedOn;
    hide ReceiverStep;
    hide Account;
    hide ReportOn;
    hide DataSince;
    var w1 := WireRun(w, LineIn(rest));
    var r1 := ReceiverRun(r, rest);
    PartArrives(r, base, w, rest);
    EndOfPart(r1, base, w1, w.cur, OctetsIn(rest), rest[0].now, idle);
    PartAccounted(ReceiverStep(r1, idle), base, WireStep(w1, idle.line), w.cur, OctetsIn(rest), rest[0].now, next);
    NothingElseEnds(w, rest);
    assert (rest + [idle])[..|rest|] == rest;
    assert (rest + [idle] + [next])[..|rest| + 1] == rest + [idle];
    hide Joined;
    hide JoinedEnded;
  }

  lemma {:induction false} NothingElseEnds(w: Wire, ins: seq<Input>)
    requires Busy(ins)
    ensures WireRun(w, LineIn(ins)).done == w.done && WireRun(w, LineIn(ins)).cur == w.cur + OctetsIn(ins)
  {
    var n := |ins| - 1;
    if ins == [] {
      assert w.cur + OctetsIn(ins) == w.cur;
    } else {
      NothingElseEnds(w, ins[..n]);
      assert LineIn(ins)[..n] == LineIn(ins[..n]);
      assert w.cur + OctetsIn(ins) == w.cur + OctetsIn(ins[..n]) + [ins[n].line.d];
    }
  }
}
