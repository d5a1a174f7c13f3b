/** The analyzer with its checker and its parser, over whole runs.

  The reference is a log of the line: the frames, when each began and whether it was
  frozen. `ReceiverRunInv` says that the registers always show what the log implies. */
module Receiver {
  import opened Arithmetic
  import opened Octets
  import opened Gmii
  import opened BramIo
  import opened CrcCheck
  import opened TestframeParser
  import opened TrafficAnalyzer

  datatype Receiver = Receiver(check: CheckRegs, parse: ParserRegs, ana: AnalyzerRegs)

  function ReportOf(r: Receiver): Report {
    Report(r.check.crcOk, r.check.preambleOk, r.parse.testframeMatch, r.parse.sequenceNum, r.parse.timestamp)
  }

  /** One clock edge of the three of them: each sees the registers of the others before it. */
  function ReceiverStep(r: Receiver, i: Input): Receiver {
    Receiver(CheckStep(r.check, false, i.line), ParseStep(r.parse, false, i.line),
             AnalyzeStep(r.ana, false, i, ReportOf(r)))
  }

  /** The analyzer wired to its checker and its parser. */
  class ReceiverDevice {
    const checker: Checker
    const parser: Parser
    const analyzer: Analyzer

    constructor (checker: Checker, parser: Parser, analyzer: Analyzer)
      requires parser.Valid() && analyzer.Valid()
      ensures this.checker == checker && this.parser == parser && this.analyzer == analyzer && Valid()
    {
      this.checker, this.parser, this.analyzer := checker, parser, analyzer;
    }

    ghost predicate Valid() {
      parser.Valid() && analyzer.Valid()
    }

    function Regs(): Receiver
      requires Valid()
      reads checker, checker.crc, parser, parser.history, analyzer, analyzer.bram.mem
    {
      Receiver(checker.Regs(), parser.Regs(), analyzer.Regs())
    }

    method Step(i: Input)
      requires Valid()
      modifies checker, checker.crc, parser, parser.history, analyzer, analyzer.bram.mem
      ensures Regs() == ReceiverStep(old(Regs()), i)
    {
      hide CheckStep;
      hide ParseStep;
      hide AnalyzeStep;
      var report := Report(checker.crcOk, checker.preambleOk,
                           parser.testframeMatch, parser.sequenceNum, parser.timestamp);
      checker.Step(false, i.line);
      parser.Step(false, i.line);
      analyzer.Step(false, i, report);
    }
  }

  // ---- the log of the line ----

  /** When a frame began, and whether statistics were frozen then. */
  datatype Tag = Tag(stamp: Time, frozen: bool)

  datatype Log = Log(wire: Wire, tags: seq<Tag>, tag: Tag, freeze: bool, idle: nat, total: nat)

  function LogStep(l: Log, i: Input): Log {
    Log(WireStep(l.wire, i.line),
        if !i.line.en && l.wire.cur != [] then l.tags + [l.tag] else l.tags,
        if i.line.en && l.wire.cur == [] then Tag(i.now, l.freeze) else l.tag,
        i.freeze, l.idle + (if i.line.en then 0 else 1), l.total + 1)
  }

  /** How many frames the analyzer has accounted for: it does so one cycle after a frame ends. */
  function AccountedCount(l: Log): nat {
    if l.wire.ended && l.wire.done != [] then |l.wire.done| - 1 else |l.wire.done|
  }

  /** What the report on the last of the frames has to be. */
  ghost function ReportOn(base: seq<Shifted>, frames: seq<seq<Octet>>): Report
    requires |base| >= 4 && frames != []
  {
    var f := frames[|frames| - 1];
    var m := Data(f);
    Report(Accepted(base, frames), GoodPreamble(f), IsTestframe(m),
           if |m| >= 22 then SequenceNumOf(m) else 0, if |m| >= 22 then TimestampOf(m) else Time(0, 0))
  }

  /** The statistics after the given frames. */
  ghost function Tally(base: seq<Shifted>, frames: seq<seq<Octet>>, tags: seq<Tag>): Book
    requires |base| >= 4 && |frames| == |tags|
  {
    if frames == [] then Book(ZERO, 0)
    else
      var n := |frames| - 1;
      Account(Tally(base, frames[..n], tags[..n]), ReportOn(base, frames),
              |frames[n]| % W32, |Data(frames[n])| % W32, tags[n].stamp)
  }

  /** What the processor reads after the given frames: the statistics up to and including
    the last frame that was not frozen, and that frame's size and arrival time. */
  ghost function Published(base: seq<Shifted>, frames: seq<seq<Octet>>, tags: seq<Tag>): Snapshot
    requires |base| >= 4 && |frames| == |tags|
  {
    if frames == [] then Snapshot(ZERO, Time(0, 0), 0)
    else
      var n := |frames| - 1;
      if tags[n].frozen then Published(base, frames[..n], tags[..n])
      else Snapshot(Tally(base, frames, tags).counters, tags[n].stamp, |frames[n]| % W32)
  }

  // ---- statistics ----

  ghost predicate LogInv(l: Log) {
    && |l.tags| == |l.wire.done|
    && (l.wire.ended ==> l.wire.cur == [] && l.wire.done != [])
  }

  /** The registers describe the frame in progress, or the one that has just ended. */
  ghost predicate FrameInv(a: AnalyzerRegs, l: Log)
    requires LogInv(l)
  {
    var w := l.wire;
    && a.run && a.freeze == l.freeze && a.frameComplete == w.ended
    && a.state == (if w.cur == [] then 0 else 1)
    && (w.cur != [] ==>
          && a.frameSize == (|w.cur| - 1) % W32 && a.l2FrameSize == |Data(w.cur)| % W32
          && a.timestamp == l.tag.stamp && a.freezeSync == l.tag.frozen && a.data == w.cur[|w.cur| - 1])
    && (w.ended ==>
          var n := |w.done| - 1;
          && a.frameSize == |w.done[n]| % W32 && a.l2FrameSize == |Data(w.done[n])| % W32
          && a.timestamp == l.tags[n].stamp && a.freezeSync == l.tags[n].frozen)
  }

  ghost predicate CountInv(a: AnalyzerRegs, base: seq<Shifted>, l: Log)
    requires LogInv(l) && |base| >= 4
  {
    var n := AccountedCount(l);
    && Book(a.counters, a.expected) == Tally(base, l.wire.done[..n], l.tags[..n])
    && a.published == Published(base, l.wire.done[..n], l.tags[..n])
    && a.octetsIdle == l.idle % W64 && a.octetsTotal == l.total % W64
  }

  /** p says what has to be said about the frame in progress and the one that has just ended. */
  ghost predicate Truthful(p: Report, base: seq<Shifted>, w: Wire)
    requires |base| >= 4 && (w.ended ==> w.done != [])
  {
    && (w.cur != [] ==> p.preambleOk == GoodPreamble(w.cur))
    && (w.ended ==>
          var q := ReportOn(base, w.done);
          && p.crcOk == q.crcOk && p.preambleOk == q.preambleOk && p.testframe == q.testframe
          && (p.testframe ==> p.sequenceNum == q.sequenceNum && p.sent == q.sent))
  }

  lemma WrapOneMore(n: int)
    ensures (n % W32 + 1) % W32 == (n + 1) % W32
  {
  }

  lemma Add64Wraps(a: nat, b: nat)
    ensures Add64(a % W64, b) == (a + b) % W64
  {
  }

  lemma FrameStepIdle(a: AnalyzerRegs, base: seq<Shifted>, l: Log, i: Input, p: Report)
    requires LogInv(l) && FrameInv(a, l) && |base| >= 4 && Truthful(p, base, l.wire)
    requires i.run && !i.line.en
    ensures LogInv(LogStep(l, i)) && FrameInv(AnalyzeStep(a, false, i, p), LogStep(l, i))
  {
    hide ReportOn;
    hide Account;
    hide LatencyStep;
    hide Add64;
    hide WithLane;
    hide Written;
    WrapOneMore(|l.wire.cur| - 1);
    hide Data;
    hide GoodPreamble;
  }

  lemma FrameStepFirst(a: AnalyzerRegs, base: seq<Shifted>, l: Log, i: Input, p: Report)
    requires LogInv(l) && FrameInv(a, l) && |base| >= 4 && Truthful(p, base, l.wire)
    requires i.run && i.line.en && l.wire.cur == []
    ensures LogInv(LogStep(l, i)) && FrameInv(AnalyzeStep(a, false, i, p), LogStep(l, i))
  {
    hide ReportOn;
    hide Account;
    hide LatencyStep;
    hide Add64;
    hide WithLane;
    hide Written;
    RecognisedFirst(i.line.d);
    assert l.wire.cur + [i.line.d] == [i.line.d];
    assert Data([i.line.d]) == [];
    hide Data;
  }

  /** What a cycle within a frame does to the registers of the frame. */
  lemma NextOctet(a: AnalyzerRegs, i: Input, p: Report)
    requires a.run && a.state == 1 && i.run && i.line.en
    ensures var b := AnalyzeStep(a, false, i, p);
      && b.run && b.freeze == i.freeze && b.frameComplete == a.frameComplete && b.state == 1
      && b.timestamp == a.timestamp && b.freezeSync == a.freezeSync && b.data == i.line.d
      && b.frameSize == (a.frameSize + 1) % W32
      && b.l2FrameSize == if p.preambleOk then (a.l2FrameSize + 1) % W32 else a.l2FrameSize
  {
    hide LatencyStep;
    hide Add64;
    hide WithLane;
    hide Written;
  }

  lemma FrameStepNext(a: AnalyzerRegs, base: seq<Shifted>, l: Log, i: Input, p: Report)
    requires LogInv(l) && FrameInv(a, l) && |base| >= 4 && Truthful(p, base, l.wire)
    requires i.run && i.line.en && l.wire.cur != []
    ensures LogInv(LogStep(l, i)) && FrameInv(AnalyzeStep(a, false, i, p), LogStep(l, i))
  {
    hide ReportOn;
    hide AnalyzeStep;
    NextOctet(a, i, p);
    var cur, d := l.wire.cur, i.line.d;
    OneMoreData(cur, d);
    hide Data;
    hide GoodPreamble;
    assert |cur + [d]| == |cur| + 1;
    WrapOneMore(|Data(cur)|);
    WrapOneMore(|cur| - 1);
  }

  lemma OneMoreData(cur: seq<Octet>, d: Octet)
    requires cur != []
    ensures |Data(cur + [d])| == |Data(cur)| + if GoodPreamble(cur) then 1 else 0
  {
    RecognisedStep(cur, d);
    assert !GoodPreamble(cur) ==> Data(cur) == Data(cur + [d]) == [];
  }

  /** The accounting looks at the sequence number only in a test frame. */
  lemma AccountAgrees(b: Book, p: Report, q: Report, frameSize: nat, l2FrameSize: nat, stamp: Time)
    requires p.crcOk == q.crcOk && p.preambleOk == q.preambleOk && p.testframe == q.testframe
    requires p.testframe ==> p.sequenceNum == q.sequenceNum
    ensures Account(b, p, frameSize, l2FrameSize, stamp) == Account(b, q, frameSize, l2FrameSize, stamp)
  {
  }

  lemma CountStepEnded(a: AnalyzerRegs, base: seq<Shifted>, l: Log, i: Input, p: Report)
    requires LogInv(l) && FrameInv(a, l) && |base| >= 4 && Truthful(p, base, l.wire) && CountInv(a, base, l)
    requires l.wire.ended
    ensures LogInv(LogStep(l, i)) && CountInv(AnalyzeStep(a, false, i, p), base, LogStep(l, i))
  {
    hide LatencyStep;
    hide Add64;
    hide WithLane;
    hide Written;
    hide Account;
    hide ReportOn;
    hide Truthful;
    hide AnalyzeFrame;
    hide Data;
    hide GoodPreamble;
    Add64Wraps(l.idle, 1);
    Add64Wraps(l.total, 1);
    var l', frames, tags := LogStep(l, i), l.wire.done, l.tags;
    var n := |frames| - 1;
    assert l'.wire.done[..n + 1] == frames && l'.tags[..n + 1] == tags;
    BookAtEnd(a, base, l, p);
  }

  lemma {:induction false} BookAtEnd(a: AnalyzerRegs, base: seq<Shifted>, l: Log, p: Report)
    requires LogInv(l) && FrameInv(a, l) && |base| >= 4 && Truthful(p, base, l.wire) && CountInv(a, base, l)
    requires l.wire.ended
    ensures var book := Account(Book(a.counters, a.expected), p, a.frameSize, a.l2FrameSize, a.timestamp);
      && book == Tally(base, l.wire.done, l.tags)
      && Published(base, l.wire.done, l.tags) ==
           (if !a.freezeSync then Snapshot(book.counters, a.timestamp, a.frameSize) else a.published)
  {
    hide Account;
    hide ReportOn;
    hide Data;
    hide GoodPreamble;
    AccountAgrees(Book(a.counters, a.expected), p, ReportOn(base, l.wire.done),
                  a.frameSize, a.l2FrameSize, a.timestamp);
  }

  lemma CountStepOther(a: AnalyzerRegs, base: seq<Shifted>, l: Log, i: Input, p: Report)
    requires LogInv(l) && FrameInv(a, l) && |base| >= 4 && CountInv(a, base, l)
    requires !l.wire.ended
    ensures LogInv(LogStep(l, i)) && CountInv(AnalyzeStep(a, false, i, p), base, LogStep(l, i))
  {
    hide Account;
    hide ReportOn;
    hide LatencyStep;
    hide Add64;
    hide WithLane;
    hide Written;
    Add64Wraps(l.idle, 1);
    Add64Wraps(l.total, 1);
    var l', n := LogStep(l, i), AccountedCount(l);
    assert AccountedCount(l') == n;
    assert l'.wire.done[..n] == l.wire.done[..n] && l'.tags[..n] == l.tags[..n];
  }

  // ---- capture ----

  /** The last frame that was not frozen, -1 if there is none. */
  function LastUnfrozen(tags: seq<Tag>): (u: int)
    ensures -1 <= u < |tags|
  {
    if tags == [] then -1
    else if !tags[|tags| - 1].frozen then |tags| - 1
    else LastUnfrozen(tags[..|tags| - 1])
  }

  /** Which octet of a frame stands at octet i of the buffer when n octets have been written:
    it is in the latest word that went there, whose lanes past the end of the frame still
    show the word before. */
  function Source(n: nat, i: nat): (k: nat)
    requires i < n
    ensures k < n && k % 4 == i % 4
    ensures if n <= 2048 then k == i else k >= n - 2048
  {
    var w := (n - 1) / 4 - ((n - 1) / 4 - i / 4) % 512;
    if 4 * w + i % 4 < n then 4 * w + i % 4 else 4 * w + i % 4 - 4
  }

  /** The buffer is as the first n octets of f have left it. */
  ghost predicate Captured(m: Memory, f: seq<Octet>, n: nat)
    requires n <= |f|
  {
    forall i :: 0 <= i < n ==> Lane(m[i / 4 % 512], i % 4) == f[Source(n, i)]
  }

  /** The word register after n octets of f. */
  ghost predicate InWord(w: Word, f: seq<Octet>, n: nat)
    requires 0 < n <= |f|
  {
    forall j :: 0 <= j < 4 && (j <= (n - 1) % 4 || n > 4) ==>
      Lane(w, j) == f[if j <= (n - 1) % 4 then (n - 1) / 4 * 4 + j else (n - 1) / 4 * 4 + j - 4]
  }

  /** The first k octets of f have been placed: the last of them is in the word about to
    be written, the others are in memory. */
  ghost predicate Placed(a: AnalyzerRegs, f: seq<Octet>, k: nat)
    requires k <= |f|
  {
    && a.bufWr == (k > 0)
    && (k > 0 ==> a.bufAddress == (k - 1) / 4 % 512 && InWord(a.bufData, f, k) && Captured(a.mem, f, k - 1))
  }

  /** A frame that is being captured, or has just been and is not yet accounted for. */
  predicate Capturing(l: Log)
    requires LogInv(l)
  {
    || (l.wire.cur != [] && !l.tag.frozen)
    || (l.wire.ended && !l.tags[|l.tags| - 1].frozen)
  }

  ghost predicate BufferInv(a: AnalyzerRegs, l: Log)
    requires LogInv(l)
  {
    var w, u := l.wire, LastUnfrozen(l.tags);
    && (w.cur != [] && !l.tag.frozen ==> Placed(a, w.cur, |w.cur| - 1))
    && (w.ended && !l.tags[|l.tags| - 1].frozen ==> Placed(a, w.done[|w.done| - 1], |w.done[|w.done| - 1]|))
    && (!Capturing(l) ==> !a.bufWr)
    && (!Capturing(l) && u >= 0 ==> Captured(a.mem, w.done[u], |w.done[u]|))
  }

  /** Where the last word goes, the octets are those of the word; elsewhere they stay. */
  lemma SourceStep(k: nat, i: nat)
    requires i < k
    ensures i / 4 % 512 == (k - 1) / 4 % 512 ==>
      && (i % 4 <= (k - 1) % 4 || k > 4)
      && Source(k, i) == (k - 1) / 4 * 4 + i % 4 - if i % 4 <= (k - 1) % 4 then 0 else 4
    ensures i / 4 % 512 != (k - 1) / 4 % 512 ==> i < k - 1 && Source(k, i) == Source(k - 1, i)
  {
    var q, p := (k - 1) / 4, i / 4;
    SameWord(q, p);
    if p % 512 != q % 512 && (k - 1) % 4 == 0 {
      assert (k - 2) / 4 == q - 1;
      OneWordLess(q - p);
    }
  }

  lemma SameWord(q: nat, p: nat)
    ensures (q - p) % 512 == 0 <==> p % 512 == q % 512
  {
  }

  lemma OneWordLess(d: int)
    requires d % 512 != 0
    ensures (d - 1) % 512 == d % 512 - 1
  {
  }

  lemma WriteOut(a: AnalyzerRegs, f: seq<Octet>, k: nat)
    requires k <= |f| && Placed(a, f, k)
    ensures Captured(Written(a.mem, a.bufWr, a.bufAddress, a.bufData), f, k)
  {
    hide Lane;
    hide Source;
    var m := Written(a.mem, a.bufWr, a.bufAddress, a.bufData);
    forall i | 0 <= i < k
      ensures Lane(m[i / 4 % 512], i % 4) == f[Source(k, i)]
    {
      SourceStep(k, i);
    }
  }

  /** One octet into the word. */
  lemma OneLane(w: Word, f: seq<Octet>, k: nat, g: seq<Octet>)
    requires k < |f| <= |g| && f <= g && (k > 0 ==> InWord(w, f, k))
    ensures InWord(WithLane(w, k % 4, f[k]), g, k + 1)
  {
    var w' := WithLane(w, k % 4, f[k]);
    forall j | 0 <= j < 4 && (j <= k % 4 || k + 1 > 4)
      ensures Lane(w', j) == g[if j <= k % 4 then k / 4 * 4 + j else k / 4 * 4 + j - 4]
    {
      if j != k % 4 {
        assert Lane(w', j) == Lane(w, j);
        OtherLanes(k, j);
      }
    }
  }

  /** The other lanes are about the same octets as before. */
  lemma OtherLanes(k: nat, j: nat)
    requires k > 0 && j < 4 && j != k % 4 && (j < k % 4 || k >= 4)
    ensures j <= (k - 1) % 4 || k > 4
    ensures (k - 1) / 4 * 4 + j - (if j <= (k - 1) % 4 then 0 else 4) == k / 4 * 4 + j - if j <= k % 4 then 0 else 4
  {
  }

  /** One octet into the frame word, the word so far into memory. */
  lemma PlaceOne(a: AnalyzerRegs, f: seq<Octet>, k: nat, a': AnalyzerRegs, g: seq<Octet>)
    requires k < |f| <= |g| && f <= g && Placed(a, f, k) && a.data == f[k]
    requires a'.bufWr && a'.bufAddress == k / 4 % 512 && a'.bufData == WithLane(a.bufData, k % 4, a.data)
    requires a'.mem == Written(a.mem, a.bufWr, a.bufAddress, a.bufData)
    ensures Placed(a', g, k + 1)
  {
    hide Lane;
    hide WithLane;
    hide InWord;
    hide Written;
    hide Source;
    WriteOut(a, f, k);
    OneLane(a.bufData, f, k, g);
  }

  lemma BufferStepFrame(a: AnalyzerRegs, l: Log, i: Input, p: Report)
    requires LogInv(l) && FrameInv(a, l) && BufferInv(a, l) && l.wire.cur != []
    ensures LogInv(LogStep(l, i)) && BufferInv(AnalyzeStep(a, false, i, p), LogStep(l, i))
  {
    if l.tag.frozen {
      BufferKept(a, l, i, p);
    } else {
      BufferWritten(a, l, i, p);
    }
    hide LogInv;
    hide BufferInv;
    hide LogStep;
    hide AnalyzeStep;
    hide FrameInv;
  }

  lemma BufferWritten(a: AnalyzerRegs, l: Log, i: Input, p: Report)
    requires LogInv(l) && FrameInv(a, l) && BufferInv(a, l) && l.wire.cur != [] && !l.tag.frozen
    ensures LogInv(LogStep(l, i)) && BufferInv(AnalyzeStep(a, false, i, p), LogStep(l, i))
  {
    hide AnalyzeStep;
    hide Placed;
    hide Data;
    hide GoodPreamble;
    var cur, l' := l.wire.cur, LogStep(l, i);
    OctetPlaced(a, l, i, p);
    if !i.line.en {
      assert l'.wire.done[|l'.wire.done| - 1] == cur && l'.tags[|l'.tags| - 1] == l.tag;
    }
  }

  lemma LowBits(n: nat)
    ensures n % W32 / 4 % 512 == n / 4 % 512 && n % W32 % 4 == n % 4
  {
    var q, r := n / W32, n % W32;
    assert n == 4 * (W30 * q) + r;
    assert n / 4 == 512 * (0x20_0000 * q) + r / 4;
    ModuloShift(r / 4, 0x20_0000 * q, 512);
    ModuloShift(r, W30 * q, 4);
  }

  lemma OctetPlaced(a: AnalyzerRegs, l: Log, i: Input, p: Report)
    requires LogInv(l) && FrameInv(a, l) && BufferInv(a, l) && l.wire.cur != [] && !l.tag.frozen
    ensures Placed(AnalyzeStep(a, false, i, p), if i.line.en then l.wire.cur + [i.line.d] else l.wire.cur, |l.wire.cur|)
  {
    hide LatencyStep;
    hide Data;
    hide GoodPreamble;
    hide Add64;
    hide Lane;
    hide WithLane;
    hide Placed;
    var cur := l.wire.cur;
    LowBits(|cur| - 1);
    PlaceOne(a, cur, |cur| - 1, AnalyzeStep(a, false, i, p), if i.line.en then cur + [i.line.d] else cur);
  }

  lemma BufferKept(a: AnalyzerRegs, l: Log, i: Input, p: Report)
    requires LogInv(l) && FrameInv(a, l) && BufferInv(a, l) && l.wire.cur != [] && l.tag.frozen
    ensures LogInv(LogStep(l, i)) && BufferInv(AnalyzeStep(a, false, i, p), LogStep(l, i))
  {
    hide LatencyStep;
    hide Data;
    hide GoodPreamble;
    hide Add64;
    hide Lane;
    hide WithLane;
    hide Placed;
    var a', l' := AnalyzeStep(a, false, i, p), LogStep(l, i);
    assert a'.mem == a.mem;
    assert i.line.en ==> l'.tags == l.tags;
    assert !i.line.en ==> l'.tags[..|l.tags|] == l.tags && LastUnfrozen(l'.tags) == LastUnfrozen(l.tags);
  }

  lemma BufferStepIdle(a: AnalyzerRegs, l: Log, i: Input, p: Report)
    requires LogInv(l) && FrameInv(a, l) && BufferInv(a, l) && l.wire.cur == []
    ensures LogInv(LogStep(l, i)) && BufferInv(AnalyzeStep(a, false, i, p), LogStep(l, i))
  {
    hide LatencyStep;
    hide Account;
    hide Data;
    hide GoodPreamble;
    hide Add64;
    hide Lane;
    hide WithLane;
    var a', l' := AnalyzeStep(a, false, i, p), LogStep(l, i);
    assert l'.tags == l.tags && l'.wire.done == l.wire.done && !a'.bufWr;
    if l.wire.ended && !l.tags[|l.tags| - 1].frozen {
      var f := l.wire.done[|l.wire.done| - 1];
      WriteOut(a, f, |f|);
    } else {
      assert a'.mem == a.mem;
    }
  }

  // ---- latency ----

  datatype Extremes = Extremes(last: Time, min: Time, max: Time)

  /** The last of the frames is an accepted test frame. */
  ghost predicate Timed(base: seq<Shifted>, frames: seq<seq<Octet>>)
    requires |base| >= 4
  {
    frames != [] && Accepted(base, frames) && IsTestframe(Data(frames[|frames| - 1]))
  }

  ghost function LatencyOf(base: seq<Shifted>, frames: seq<seq<Octet>>, tags: seq<Tag>): Time
    requires |base| >= 4 && |frames| == |tags| && frames != []
  {
    Latency(tags[|tags| - 1].stamp, ReportOn(base, frames).sent)
  }

  /** The latency of the last test frame, and the extremes over all of them. */
  ghost function Latencies(base: seq<Shifted>, frames: seq<seq<Octet>>, tags: seq<Tag>): Extremes
    requires |base| >= 4 && |frames| == |tags|
  {
    if frames == [] then Extremes(Time(0, 1), NO_MINIMUM, Time(0, 0))
    else
      var n := |frames| - 1;
      var e := Latencies(base, frames[..n], tags[..n]);
      if Timed(base, frames) then
        var t := LatencyOf(base, frames, tags);
        Extremes(t, Smaller(t, e.min), Larger(t, e.max))
      else e
  }

  /** The same up to and including the last test frame that was not frozen. */
  ghost function PublishedLatencies(base: seq<Shifted>, frames: seq<seq<Octet>>, tags: seq<Tag>): Extremes
    requires |base| >= 4 && |frames| == |tags|
  {
    if frames == [] then Extremes(Time(0, 2), NO_MINIMUM, Time(0, 0))
    else
      var n := |frames| - 1;
      if Timed(base, frames) && !tags[n].frozen then Latencies(base, frames, tags)
      else PublishedLatencies(base, frames[..n], tags[..n])
  }

  /** The extremes follow one cycle behind the latency itself. */
  ghost predicate LatencyInv(r: LatencyRegs, base: seq<Shifted>, frames: seq<seq<Octet>>, tags: seq<Tag>)
    requires |base| >= 4 && |frames| == |tags|
  {
    var n := |frames| - 1;
    && r.last == Latencies(base, frames, tags).last
    && (!r.update ==> Extremes(r.last, r.min, r.max) == Latencies(base, frames, tags))
    && (r.update ==>
          && Timed(base, frames)
          && r.min == Latencies(base, frames[..n], tags[..n]).min
          && r.max == Latencies(base, frames[..n], tags[..n]).max)
    && (!r.updateRegs ==> Extremes(r.lastReg, r.minReg, r.maxReg) == PublishedLatencies(base, frames, tags))
    && (r.updateRegs ==>
          && r.update && !tags[n].frozen
          && Extremes(r.lastReg, r.minReg, r.maxReg) == PublishedLatencies(base, frames[..n], tags[..n]))
  }

  ghost predicate LatencyLogInv(a: AnalyzerRegs, base: seq<Shifted>, l: Log)
    requires LogInv(l) && |base| >= 4
  {
    var n := AccountedCount(l);
    && LatencyInv(a.latency, base, l.wire.done[..n], l.tags[..n])
    && (a.latency.update ==> !l.wire.ended)
  }

  /** A frame is accounted for: the pipeline takes in its latency, if it is a test frame. */
  lemma LatencyTakesIn(a: AnalyzerRegs, base: seq<Shifted>, frames: seq<seq<Octet>>, tags: seq<Tag>, p: Report)
    requires |base| >= 4 && |frames| == |tags| && frames != []
    requires var n := |frames| - 1; LatencyInv(a.latency, base, frames[..n], tags[..n])
    requires a.run && a.state == 0 && a.frameComplete && !a.latency.update
    requires var q := ReportOn(base, frames);
      p.crcOk == q.crcOk && p.testframe == q.testframe && (p.testframe ==> p.sent == q.sent)
    requires a.timestamp == tags[|tags| - 1].stamp && a.freezeSync == tags[|tags| - 1].frozen
    ensures LatencyInv(LatencyStep(a, false, p), base, frames, tags)
  {
    assert p.crcOk && p.testframe <==> Timed(base, frames);
    hide Accepted;
    hide IsTestframe;
    hide Latency;
    hide Data;
  }

  /** No frame is accounted for: the extremes catch up. */
  lemma LatencyCatchesUp(a: AnalyzerRegs, base: seq<Shifted>, frames: seq<seq<Octet>>, tags: seq<Tag>, p: Report)
    requires |base| >= 4 && |frames| == |tags| && LatencyInv(a.latency, base, frames, tags)
    requires a.run && !(a.state == 0 && a.frameComplete)
    ensures LatencyInv(LatencyStep(a, false, p), base, frames, tags)
    ensures !LatencyStep(a, false, p).update
  {
    hide Accepted;
    hide IsTestframe;
    hide Latency;
    hide Data;
  }

  lemma LatencyLogStep(a: AnalyzerRegs, base: seq<Shifted>, l: Log, i: Input, p: Report)
    requires LogInv(l) && FrameInv(a, l) && |base| >= 4 && Truthful(p, base, l.wire) && LatencyLogInv(a, base, l)
    ensures LogInv(LogStep(l, i)) && LatencyLogInv(AnalyzeStep(a, false, i, p), base, LogStep(l, i))
  {
    hide LatencyInv;
    hide LatencyStep;
    hide ReportOn;
    hide Account;
    hide Data;
    hide GoodPreamble;
    hide Add64;
    hide WithLane;
    hide Written;
    var l', n := LogStep(l, i), AccountedCount(l);
    var n' := AccountedCount(l');
    if l.wire.ended {
      var frames, tags := l.wire.done, l.tags;
      assert l'.wire.done[..n'] == frames && l'.tags[..n'] == tags;
      LatencyTakesIn(a, base, frames, tags, p);
    } else {
      assert n' == n && l'.wire.done[..n'] == l.wire.done[..n] && l'.tags[..n'] == l.tags[..n];
      LatencyCatchesUp(a, base, l.wire.done[..n], l.tags[..n], p);
    }
  }

  // ---- the receiver as a whole ----

  ghost predicate ReceiverInv(r: Receiver, base: seq<Shifted>, l: Log) {
    && CheckInv(r.check, base, l.wire) && ParserInv(r.parse, l.wire)
    && LogInv(l) && FrameInv(r.ana, l) && CountInv(r.ana, base, l)
    && BufferInv(r.ana, l) && LatencyLogInv(r.ana, base, l)
  }

  lemma BaseIsLong(r: Receiver, base: seq<Shifted>, l: Log)
    requires ReceiverInv(r, base, l)
    ensures |base| >= 4
  {
    hide LogInv;
    hide ParserInv;
    hide FrameInv;
    hide CountInv;
    hide BufferInv;
    hide LatencyLogInv;
  }

  /** The checker and the parser tell the analyzer the truth, in the cycle in which it listens. */
  lemma ReportsAreTruthful(r: Receiver, base: seq<Shifted>, w: Wire)
    requires CheckInv(r.check, base, w) && ParserInv(r.parse, w)
    ensures w.ended ==> w.done != []
    ensures Truthful(ReportOf(r), base, w)
  {
    if w.ended {
      var m := Data(w.done[|w.done| - 1]);
      if |m| < 38 {
        NoMark(m);
      }
    }
    hide Verdict;
    hide IsTestframe;
  }

  lemma ReceiverStepInv(r: Receiver, base: seq<Shifted>, l: Log, i: Input)
    requires ReceiverInv(r, base, l) && i.run
    ensures ReceiverInv(ReceiverStep(r, i), base, LogStep(l, i))
  {
    hide CheckInv;
    hide ParserInv;
    hide FrameInv;
    hide CountInv;
    hide BufferInv;
    hide LatencyLogInv;
    hide CheckStep;
    hide ParseStep;
    hide AnalyzeStep;
    CheckStepInv(r.check, base, l.wire, i.line);
    ParseStepInv(r.parse, l.wire, i.line);
    ReportsAreTruthful(r, base, l.wire);
    var p := ReportOf(r);
    if !i.line.en {
      FrameStepIdle(r.ana, base, l, i, p);
    } else if l.wire.cur == [] {
      FrameStepFirst(r.ana, base, l, i, p);
    } else {
      FrameStepNext(r.ana, base, l, i, p);
    }
    if l.wire.ended {
      CountStepEnded(r.ana, base, l, i, p);
    } else {
      CountStepOther(r.ana, base, l, i, p);
    }
    if l.wire.cur == [] {
      BufferStepIdle(r.ana, l, i, p);
    } else {
      BufferStepFrame(r.ana, l, i, p);
    }
    LatencyLogStep(r.ana, base, l, i, p);
  }
}
