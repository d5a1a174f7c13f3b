/** Whole runs of the generator. */
module GeneratorRuns {
  import opened Octets
  import opened EthernetCrc8
  import opened FrameCheck
  import opened Gmii
  import opened BramIo
  import opened TrafficGenerator
  import opened GeneratorStream

  // ---- one cycle of a slot ----

  lemma FrameBeginsWithTemplate(c: Config, mem: Memory, first: Word, k: nat, stamp: Time, j: nat)
    requires Usable(c) && j < Size(c)
    ensures Frame(c, mem, first, k, stamp)[j] == TemplateOctet(mem, first, j)
  {
    hide StampOctets;
    hide TemplateOctet;
    hide Crc;
    hide Fcs;
  }

  lemma TemplateEnds(g: Generator, c: Config, mem: Memory, first: Word, f: seq<Octet>, stamp: Time)
    requires Usable(c) && |f| == FrameLength(c)
    requires AtTemplate(g.(seqr := g.seqr.(state := 1)), c, mem, first, f, stamp, Size(c))
    requires g.seqr.state == if c.dynamic then 3 else 6
    ensures if c.dynamic then AtTrailer(g, c, mem, f, stamp, Size(c) - 1) else AtLast(g, c, f)
  {
    hide Crc;
    hide StampOctets;
  }

  ghost predicate Continues(g: Generator, c: Config, mem: Memory, k: nat, stamp: Time, p: nat)
    requires Usable(c)
  {
    if p < SlotLength(c, k) then At(g, c, mem, k, stamp, p) else AtEnd(g, c, mem, k)
  }

  lemma TemplateCycle(g: Generator, c: Config, mem: Memory, k: nat, stamp: Time, p: nat, now: Time)
    requires Usable(c) && 0 < p <= Size(c) && At(g, c, mem, k, stamp, p) && (p == 2 ==> now == stamp)
    ensures var g' := GenerateStep(g, c, mem, false, now);
      && g'.pipe.gmii == SlotCycle(Frame(c, mem, FirstWord(c, mem, k), k, stamp), p)
      && At(g', c, mem, k, stamp, p + 1)
  {
    hide GenerateStep;
    hide AtTemplate;
    hide AtTrailer;
    hide AtLast;
    hide Steady;
    hide CountersLoaded;
    hide Frame;
    hide FirstWord;
    var first := FirstWord(c, mem, k);
    var f := Frame(c, mem, first, k, stamp);
    FrameBeginsWithTemplate(c, mem, first, k, stamp, p - 1);
    StepInTemplate(g, c, mem, first, f, stamp, p - 1, k, now);
    var g' := GenerateStep(g, c, mem, false, now);
    if p < Size(c) {
      assert g'.(seqr := g'.seqr.(state := 1)) == g';
    } else {
      TemplateEnds(g', c, mem, first, f, stamp);
    }
  }

  lemma TrailerCycle(g: Generator, c: Config, mem: Memory, k: nat, stamp: Time, p: nat, now: Time)
    requires Usable(c) && Size(c) < p < FrameLength(c) + 2 && At(g, c, mem, k, stamp, p)
    ensures var g' := GenerateStep(g, c, mem, false, now);
      && g'.pipe.gmii == SlotCycle(Frame(c, mem, FirstWord(c, mem, k), k, stamp), p)
      && At(g', c, mem, k, stamp, p + 1)
  {
    hide GenerateStep;
    hide AtTrailer;
    hide AtLast;
    hide AtGap;
    hide Steady;
    hide CountersLoaded;
    hide Frame;
    hide FirstWord;
    var first := FirstWord(c, mem, k);
    var f := Frame(c, mem, first, k, stamp);
    if !c.dynamic {
      StepInLast(g, c, mem, f, k, now);
    } else if p - 2 < Size(c) + 17 {
      StepInFields(g, c, mem, first, f, stamp, p - 2, k, now);
    } else if p - 2 == Size(c) + 17 {
      StepToFcs(g, c, mem, first, f, stamp, p - 2, k, now);
    } else {
      StepInFcs(g, c, mem, f, stamp, p - 2, k, now);
    }
  }

  /** In every cycle of slot k the generator sends what the slot says, and moves to the
    next cycle of the slot, or to the next slot. */
  lemma CycleOfSlot(g: Generator, c: Config, mem: Memory, k: nat, stamp: Time, p: nat, now: Time)
    requires Usable(c) && p < SlotLength(c, k) && At(g, c, mem, k, stamp, p) && (p == 2 ==> now == stamp)
    ensures var g' := GenerateStep(g, c, mem, false, now);
      && g'.pipe.gmii == SlotCycle(Frame(c, mem, FirstWord(c, mem, k), k, stamp), p)
      && Continues(g', c, mem, k, stamp, p + 1)
  {
    if 0 < p <= Size(c) {
      TemplateCycle(g, c, mem, k, stamp, p, now);
    } else if 0 < p < FrameLength(c) + 2 {
      TrailerCycle(g, c, mem, k, stamp, p, now);
    } else if p == 0 {
      hide GenerateStep;
      hide AtTemplate;
      hide Steady;
      hide CountersLoaded;
      StepFromStart(g, c, mem, k, Frame(c, mem, FirstWord(c, mem, k), k, stamp), stamp, now);
    } else {
      hide GenerateStep;
      hide AtGap;
      hide AtEnd;
      hide Steady;
      hide CountersLoaded;
      StepInGap(g, c, mem, k, p - FrameLength(c) - 2, now);
    }
  }

  // ---- runs ----

  /** The state after t cycles, when the clock shows times[i] in cycle i. */
  function GeneratorAfter(g: Generator, c: Config, mem: Memory, times: seq<Time>, t: nat): Generator
    requires t <= |times|
  {
    if t == 0 then g else GenerateStep(GeneratorAfter(g, c, mem, times, t - 1), c, mem, false, times[t - 1])
  }

  /** The time that frame k carries: the clock in the third cycle of its slot. */
  function StampOf(c: Config, times: seq<Time>, k: nat): Time {
    if SlotStart(c, k) + 2 < |times| then times[SlotStart(c, k) + 2] else Time(0, 0)
  }

  function FrameOf(c: Config, mem: Memory, times: seq<Time>, k: nat): (f: seq<Octet>)
    requires Usable(c)
    ensures |f| == FrameLength(c)
  {
    Frame(c, mem, FirstWord(c, mem, k), k, StampOf(c, times, k))
  }

  predicate Sent(c: Config, k: nat) {
    c.totalFrames == 0 || k < c.totalFrames
  }

  /** About to send the first frame. */
  ghost predicate Ready(g: Generator, c: Config, mem: Memory) {
    Steady(g, c, 0) && AtStart(g, c, mem, 0) && g.pipe.gmii == IDLE
  }

  ghost predicate Stopped(g: Generator) {
    !g.seqr.run && g.seqr.state == 0 && g.pipe.address == 0 && g.pipe.crcInit && g.pipe.gmii == IDLE
  }

  /** A reset stops the generator, whatever it was doing, and clears its packet counter. */
  lemma ResetStops(g: Generator, c: Config, mem: Memory, now: Time)
    requires !c.run
    ensures Stopped(GenerateStep(g, c, mem, true, now)) && GenerateStep(g, c, mem, true, now).seqr.pkts == 0
  {
    hide CrcStep;
    hide StampOctets;
    hide Lane;
  }

  /** From there it becomes ready when it is switched on, and stays stopped until then. */
  lemma StoppedUntilStarted(g: Generator, c: Config, mem: Memory, now: Time)
    requires Stopped(g)
    ensures var g' := GenerateStep(g, c, mem, false, now);
      if c.run then Ready(g', c, mem) else Stopped(g')
  {
    hide CrcStep;
    hide StampOctets;
    hide Lane;
  }

  /** After its last frame it can be stopped without a reset. */
  lemma FinishedStops(g: Generator, before: Config, c: Config, mem: Memory, now: Time)
    requires Finished(g, before) && !c.run && c.totalFrames == before.totalFrames
    ensures Stopped(GenerateStep(g, c, mem, false, now))
  {
    hide CrcStep;
    hide StampOctets;
    hide Lane;
  }

  lemma NextSlot(g: Generator, c: Config, mem: Memory, k: nat, stamp: Time)
    requires Usable(c) && AtEnd(g, c, mem, k) && Sent(c, k + 1)
    ensures At(g, c, mem, k + 1, stamp, 0)
  {
    hide AtStart;
    hide Steady;
    hide FirstWord;
    hide Frame;
  }

  lemma FirstSlot(g: Generator, c: Config, mem: Memory, stamp: Time)
    requires Usable(c) && Ready(g, c, mem) && Sent(c, 0)
    ensures At(g, c, mem, 0, stamp, 0)
  {
    hide Frame;
  }

  /** In cycle p of slot k, when frame k is to be sent, the generator is where it should be. */
  lemma {:induction false} ReachesSlot(g: Generator, c: Config, mem: Memory, times: seq<Time>, k: nat, p: nat)
    requires Usable(c) && Ready(g, c, mem)
    requires Sent(c, k) && p < SlotLength(c, k) && SlotStart(c, k) + p <= |times|
    ensures At(GeneratorAfter(g, c, mem, times, SlotStart(c, k) + p), c, mem, k, StampOf(c, times, k), p)
    decreases k, p
  {
    hide GenerateStep;
    hide At;
    hide AtEnd;
    hide Ready;
    hide SlotLength;
    if p > 0 {
      ReachesSlot(g, c, mem, times, k, p - 1);
      var t := SlotStart(c, k) + p - 1;
      CycleOfSlot(GeneratorAfter(g, c, mem, times, t), c, mem, k, StampOf(c, times, k), p - 1, times[t]);
    } else if k == 0 {
      FirstSlot(g, c, mem, StampOf(c, times, 0));
    } else {
      SlotEnds(g, c, mem, times, k - 1);
      NextSlot(GeneratorAfter(g, c, mem, times, SlotStart(c, k)), c, mem, k - 1, StampOf(c, times, k));
    }
  }

  lemma {:induction false} SlotEnds(g: Generator, c: Config, mem: Memory, times: seq<Time>, k: nat)
    requires Usable(c) && Ready(g, c, mem)
    requires Sent(c, k) && SlotStart(c, k) + SlotLength(c, k) <= |times|
    ensures AtEnd(GeneratorAfter(g, c, mem, times, SlotStart(c, k) + SlotLength(c, k)), c, mem, k)
    decreases k, SlotLength(c, k)
  {
    hide GenerateStep;
    hide Ready;
    hide AtStart;
    hide Steady;
    hide FirstWord;
    hide At;
    hide AtEnd;
    var p := SlotLength(c, k) - 1;
    ReachesSlot(g, c, mem, times, k, p);
    var t := SlotStart(c, k) + p;
    CycleOfSlot(GeneratorAfter(g, c, mem, times, t), c, mem, k, StampOf(c, times, k), p, times[t]);
  }

  /** Once all frames are sent the generator stays idle. */
  lemma {:induction false} StaysFinished(g: Generator, c: Config, mem: Memory, times: seq<Time>, t: nat)
    requires Usable(c) && Ready(g, c, mem)
    requires c.totalFrames > 0 && SlotStart(c, c.totalFrames) <= t <= |times|
    ensures Finished(GeneratorAfter(g, c, mem, times, t), c)
  {
    hide GenerateStep;
    hide Ready;
    hide AtStart;
    hide Steady;
    hide Finished;
    var last := c.totalFrames - 1;
    assert SlotStart(c, c.totalFrames) == SlotStart(c, last) + SlotLength(c, last);
    if t > SlotStart(c, c.totalFrames) {
      StaysFinished(g, c, mem, times, t - 1);
      StepFinished(GeneratorAfter(g, c, mem, times, t - 1), c, mem, times[t - 1]);
    } else {
      SlotEnds(g, c, mem, times, last);
    }
  }

  /** What the generator puts on the line in cycle t. */
  function Output(g: Generator, c: Config, mem: Memory, times: seq<Time>, t: nat): Cycle
    requires t < |times|
  {
    GeneratorAfter(g, c, mem, times, t + 1).pipe.gmii
  }

  lemma {:induction false} OutputOfStep(g: Generator, c: Config, mem: Memory, times: seq<Time>, t: nat)
    requires t < |times|
    ensures Output(g, c, mem, times, t)
         == GenerateStep(GeneratorAfter(g, c, mem, times, t), c, mem, false, times[t]).pipe.gmii
  {
    hide GenerateStep;
  }

  /** The generator refines the slots: in cycle p of slot k it sends octet p - 2 of
    frame k, and the line is idle in the rest of the slot. */
  lemma {:induction false} SendsFrames(g: Generator, c: Config, mem: Memory, times: seq<Time>, k: nat, p: nat)
    requires Usable(c) && Ready(g, c, mem)
    requires Sent(c, k) && p < SlotLength(c, k) && SlotStart(c, k) + p < |times|
    ensures Output(g, c, mem, times, SlotStart(c, k) + p) == SlotCycle(FrameOf(c, mem, times, k), p)
  {
    hide GenerateStep;
    hide Ready;
    hide AtStart;
    hide Steady;
    hide FirstWord;
    hide At;
    hide Frame;
    hide SlotCycle;
    hide Continues;
    hide SlotLength;
    hide Output;
    ReachesSlot(g, c, mem, times, k, p);
    var t := SlotStart(c, k) + p;
    OutputOfStep(g, c, mem, times, t);
    CycleOfSlot(GeneratorAfter(g, c, mem, times, t), c, mem, k, StampOf(c, times, k), p, times[t]);
  }

  /** No frame is sent after the last. */
  lemma {:induction false} SendsNoMore(g: Generator, c: Config, mem: Memory, times: seq<Time>, t: nat)
    requires Usable(c) && Ready(g, c, mem)
    requires c.totalFrames > 0 && SlotStart(c, c.totalFrames) <= t < |times|
    ensures Output(g, c, mem, times, t) == IDLE
  {
    hide GenerateStep;
    hide Ready;
    hide AtStart;
    hide Steady;
    StaysFinished(g, c, mem, times, t);
    StepFinished(GeneratorAfter(g, c, mem, times, t), c, mem, times[t]);
  }

  // ---- the stream as a whole ----

  /** Frame k is on the line from this cycle on. */
  function FrameStart(c: Config, k: nat): nat {
    SlotStart(c, k) + 2
  }

  ghost predicate SendsFrame(g: Generator, c: Config, mem: Memory, times: seq<Time>, k: nat)
    requires Usable(c) && FrameStart(c, k) + FrameLength(c) <= |times|
  {
    var a := FrameStart(c, k);
    forall t :: a <= t < a + FrameLength(c) ==>
      Output(g, c, mem, times, t) == Cycle(true, FrameOf(c, mem, times, k)[t - a])
  }

  ghost predicate SendsGap(g: Generator, c: Config, mem: Memory, times: seq<Time>, k: nat)
    requires FrameStart(c, k) + FrameLength(c) + Gap(c, k) <= |times|
  {
    var b := FrameStart(c, k) + FrameLength(c);
    forall t :: b <= t < b + Gap(c, k) ==> Output(g, c, mem, times, t) == IDLE
  }

  /** Two idle cycles, frame 0, gap 0, frame 1, gap 1, ...: frame k + 1 follows frame k
    after exactly Gap(c, k) idle cycles. */
  lemma FramesAndGaps(g: Generator, c: Config, mem: Memory, times: seq<Time>, k: nat)
    requires Usable(c) && Ready(g, c, mem) && Sent(c, k)
    requires FrameStart(c, k) + FrameLength(c) + Gap(c, k) <= |times|
    ensures SendsFrame(g, c, mem, times, k) && SendsGap(g, c, mem, times, k)
    ensures FrameStart(c, 0) == 2 && FrameStart(c, k + 1) == FrameStart(c, k) + FrameLength(c) + Gap(c, k)
  {
    hide Ready;
    hide Output;
    hide FrameOf;
    hide Gap;
    var a, b := SlotStart(c, k), SlotStart(c, k + 1);
    forall t | a + 2 <= t < a + 2 + FrameLength(c)
      ensures Output(g, c, mem, times, t) == Cycle(true, FrameOf(c, mem, times, k)[t - (a + 2)])
    {
      SendsFrames(g, c, mem, times, k, t - a);
    }
    forall t | a + 2 + FrameLength(c) <= t < b + 2
      ensures Output(g, c, mem, times, t) == IDLE
    {
      if t < b {
        SendsFrames(g, c, mem, times, k, t - a);
      } else if Sent(c, k + 1) {
        SendsFrames(g, c, mem, times, k + 1, t - b);
      } else {
        SendsNoMore(g, c, mem, times, t);
      }
    }
  }

  /** The gap is what the register says exactly when the register holds at least 3. */
  lemma GapIsRegister(c: Config, k: nat)
    requires Usable(c)
    ensures Gap(c, k) == GapRegister(c, k) <==> GapRegister(c, k) >= 3
  {
  }

  /** Frame k begins with the first word of the frame buffer, whatever the buffer holds,
    unless the gap before it was 3; then it does only when the frame size is such that
    the read address had come round to the start of the buffer. */
  lemma FrameBeginsWithBuffer(c: Config, k: nat)
    requires Usable(c)
    ensures (forall mem: Memory :: FirstWord(c, mem, k) == mem[0])
       <==> k == 0 || Gap(c, k - 1) != 3 || Size(c) / 4 % 512 == 511
  {
    hide Gap;
    var n := (1 + Size(c) / 4) % 512;
    if k > 0 && Gap(c, k - 1) == 3 && Size(c) / 4 % 512 != 511 {
      var zero := Word(0, 0, 0, 0);
      var mem: Memory := seq(512, i => if i == 0 then Word(1, 0, 0, 0) else zero);
      assert FirstWord(c, mem, k) == zero != mem[0];
    }
  }

  // ---- templates of one octet ----

  /** With a template of one octet the line is not enabled in state 1, and so only by the
    frame check sequence, if there is one. */
  ghost predicate OneOctet(g: Generator, c: Config) {
    var s, p := g.seqr, g.pipe;
    && c.run && s.run && c.frameSize == 1 && s.timestampEnable == c.dynamic && s.state <= 6
    && s.nextState == (if c.dynamic then 3 else 6) && (s.state in {3, 4, 5} ==> c.dynamic)
    && (s.state == 1 ==> s.dataCounter == 0 && s.dataCounterLast == 0)
    && (p.gmii.en ==> s.state in {2, 5}) && p.crcInit
  }

  lemma OneOctetStep(g: Generator, c: Config, mem: Memory, now: Time)
    requires OneOctet(g, c)
    ensures var g' := GenerateStep(g, c, mem, false, now);
      && OneOctet(g', c) && (g'.pipe.gmii.en <==> g.seqr.state == 5)
      && g'.pipe.crc.crc == 0xFF && (g.seqr.state == 5 ==> c.dynamic)
      && (g.seqr.state == 5 ==>
            g'.pipe.gmii.d == if g.seqr.crcCounter == 0 then g.pipe.dataT0 else g.pipe.crc.crc)
  {
    hide StampOctets;
    hide Lane;
  }

  /** Static frames of one octet are never sent; dynamic ones are cut down to what is sent in
    state 5: the last octet of the time, and 0xFF four times. */
  lemma {:induction false} OneOctetIsNotSent(g: Generator, c: Config, mem: Memory, times: seq<Time>, t: nat)
    requires OneOctet(g, c) && t < |times|
    ensures var h := GeneratorAfter(g, c, mem, times, t);
      && OneOctet(h, c) && (t > 0 ==> h.pipe.crc.crc == 0xFF)
      && (Output(g, c, mem, times, t).en <==> h.seqr.state == 5)
      && (t > 0 && h.seqr.state == 5 ==>
            Output(g, c, mem, times, t).d == if h.seqr.crcCounter == 0 then h.pipe.dataT0 else 0xFF)
      && (!c.dynamic ==> !Output(g, c, mem, times, t).en)
  {
    hide GenerateStep;
    hide OneOctet;
    if t > 0 {
      OneOctetIsNotSent(g, c, mem, times, t - 1);
      OneOctetStep(GeneratorAfter(g, c, mem, times, t - 1), c, mem, times[t - 1]);
    }
    OneOctetStep(GeneratorAfter(g, c, mem, times, t), c, mem, times[t]);
  }

  // ---- the stream, cut into frames ----

  function SlotCycles(f: seq<Octet>, n: nat): (s: seq<Cycle>)
    ensures |s| == n
  {
    seq(n, p requires 0 <= p < n => SlotCycle(f, p))
  }

  function Frames(c: Config, mem: Memory, times: seq<Time>, n: nat): (fs: seq<seq<Octet>>)
    requires Usable(c)
    ensures |fs| == n
  {
    seq(n, k requires 0 <= k < n => FrameOf(c, mem, times, k))
  }

  function Stream(c: Config, mem: Memory, times: seq<Time>, n: nat): (s: seq<Cycle>)
    requires Usable(c)
    ensures |s| == SlotStart(c, n)
  {
    if n == 0 then []
    else Stream(c, mem, times, n - 1) + SlotCycles(FrameOf(c, mem, times, n - 1), SlotLength(c, n - 1))
  }

  /** What is on the line in the first t cycles. */
  function Line(g: Generator, c: Config, mem: Memory, times: seq<Time>, t: nat): (s: seq<Cycle>)
    requires t <= |times|
    ensures |s| == t
  {
    seq(t, i requires 0 <= i < t => Output(g, c, mem, times, i))
  }

  lemma {:induction false} LineOfSlot(g: Generator, c: Config, mem: Memory, times: seq<Time>, k: nat)
    requires Usable(c) && Ready(g, c, mem) && Sent(c, k) && SlotStart(c, k) <= SlotStart(c, k + 1) <= |times|
    ensures Line(g, c, mem, times, SlotStart(c, k + 1))
         == Line(g, c, mem, times, SlotStart(c, k)) + SlotCycles(FrameOf(c, mem, times, k), SlotLength(c, k))
  {
    hide Ready;
    hide Output;
    hide FrameOf;
    hide SlotCycle;
    hide SlotLength;
    var a, whole := SlotStart(c, k), Line(g, c, mem, times, SlotStart(c, k + 1));
    forall t | a <= t < |whole|
      ensures whole[t] == SlotCycle(FrameOf(c, mem, times, k), t - a)
    {
      SendsFrames(g, c, mem, times, k, t - a);
    }
  }

  lemma {:induction false} LineIsStream(g: Generator, c: Config, mem: Memory, times: seq<Time>, n: nat)
    requires Usable(c) && Ready(g, c, mem) && (c.totalFrames == 0 || n <= c.totalFrames)
    requires SlotStart(c, n) <= |times|
    ensures Line(g, c, mem, times, SlotStart(c, n)) == Stream(c, mem, times, n)
  {
    hide Ready;
    hide Output;
    hide FrameOf;
    hide SlotCycle;
    if n > 0 {
      LineIsStream(g, c, mem, times, n - 1);
      LineOfSlot(g, c, mem, times, n - 1);
    }
  }

  lemma {:induction false} WireRunIdle(w: Wire, n: nat)
    requires w.cur == [] && n > 0
    ensures WireRun(w, seq(n, _ => IDLE)) == Wire(w.done, [], false)
  {
    assert seq(n, _ => IDLE) == seq(n - 1, _ => IDLE) + [IDLE];
    WireRunSnoc(w, seq(n - 1, _ => IDLE), IDLE);
    if n > 1 {
      WireRunIdle(w, n - 1);
    }
  }

  lemma {:induction false} WireRunSlot(w: Wire, f: seq<Octet>, n: nat)
    requires w.cur == [] && f != [] && n >= |f| + 3
    ensures WireRun(w, SlotCycles(f, n)) == Wire(w.done + [f], [], n == |f| + 3)
  {
    var idle, rest := seq(2, _ => IDLE), seq(n - |f| - 3, _ => IDLE);
    assert SlotCycles(f, n) == ((idle + FrameCycles(f)) + [IDLE]) + rest;
    WireRunIdle(w, 2);
    WireRunConcat(w, idle, FrameCycles(f));
    WireRunFrame(Wire(w.done, [], false), f);
    WireRunSnoc(w, idle + FrameCycles(f), IDLE);
    WireRunConcat(w, (idle + FrameCycles(f)) + [IDLE], rest);
    if rest != [] {
      WireRunIdle(Wire(w.done + [f], [], true), |rest|);
    }
  }

  /** Cut into frames, the first n slots are the frames 0 to n - 1. */
  lemma {:induction false} StreamIsFrames(c: Config, mem: Memory, times: seq<Time>, n: nat)
    requires Usable(c)
    ensures var w := WireRun(SILENT, Stream(c, mem, times, n));
      w.cur == [] && w.done == Frames(c, mem, times, n)
  {
    hide FrameOf;
    hide SlotCycles;
    hide WireStep;
    hide FrameLength;
    hide SlotLength;
    if n > 0 {
      StreamIsFrames(c, mem, times, n - 1);
      var f := FrameOf(c, mem, times, n - 1);
      var s := Stream(c, mem, times, n - 1);
      FrameFitsSlot(c, n - 1);
      WireRunConcat(SILENT, s, SlotCycles(f, SlotLength(c, n - 1)));
      WireRunSlot(WireRun(SILENT, s), f, SlotLength(c, n - 1));
      OneMoreFrame(c, mem, times, n - 1);
    }
  }

  lemma FrameFitsSlot(c: Config, k: nat)
    requires Usable(c)
    ensures 0 < FrameLength(c) && SlotLength(c, k) >= FrameLength(c) + 3
  {
  }

  lemma OneMoreFrame(c: Config, mem: Memory, times: seq<Time>, n: nat)
    requires Usable(c)
    ensures Frames(c, mem, times, n + 1) == Frames(c, mem, times, n) + [FrameOf(c, mem, times, n)]
  {
    hide FrameOf;
  }

  /** Exactly the configured number of frames is sent, however long the run. */
  lemma {:induction false} SendsExactlyTotalFrames(g: Generator, c: Config, mem: Memory, times: seq<Time>, t: nat)
    requires Usable(c) && Ready(g, c, mem) && c.totalFrames > 0
    requires SlotStart(c, c.totalFrames) <= t <= |times|
    ensures var w := WireRun(SILENT, Line(g, c, mem, times, t));
      w.cur == [] && w.done == Frames(c, mem, times, c.totalFrames)
  {
    hide Ready;
    hide Output;
    hide FrameOf;
    if t == SlotStart(c, c.totalFrames) {
      LineIsStream(g, c, mem, times, c.totalFrames);
      StreamIsFrames(c, mem, times, c.totalFrames);
    } else {
      SendsExactlyTotalFrames(g, c, mem, times, t - 1);
      SendsNoMore(g, c, mem, times, t - 1);
      assert Line(g, c, mem, times, t) == Line(g, c, mem, times, t - 1) + [IDLE];
      WireRunSnoc(SILENT, Line(g, c, mem, times, t - 1), IDLE);
    }
  }
}
