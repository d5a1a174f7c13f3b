/** What the generator sends: frame 0, gap 0, frame 1, gap 1, ...

  The reference divides time into slots, one for each frame: two cycles in which the
  frame is fetched, the frame, and the rest of the gap. */
module GeneratorStream {
  import opened Arithmetic
  import opened Octets
  import opened EthernetCrc8
  import opened FrameCheck
  import opened Gmii
  import opened BramIo
  import opened TrafficGenerator

  // ---- the stream ----

  /** The octets of the template: the register, with 0 standing for 2 to the power 32. */
  function Size(c: Config): (n: nat)
    ensures 1 <= n <= W32
    ensures 0 < c.frameSize < W32 ==> n == c.frameSize
  {
    (c.frameSize - 1) % W32 + 1
  }

  /** Every configuration in which the generator runs, unless the template has one octet
    only: then the state machine leaves state 1 before it has enabled the line. */
  predicate Usable(c: Config) {
    && c.run && c.frameSize < W32 && c.frameSize != 1
    && c.interframeGap < W32 && c.interburstGap < W32 && c.framesPerBurst < W32 && c.totalFrames < W64
  }

  /** Octet j of the template: the frame buffer, read modulo its 2048 octets, except
    that the first word may have been fetched earlier. */
  function TemplateOctet(mem: Memory, first: Word, j: nat): Octet {
    if j < 4 then Lane(first, j) else Lane(mem[j / 4 % 512], j % 4)
  }

  function Template(c: Config, mem: Memory, first: Word): (s: seq<Octet>)
    ensures |s| == Size(c)
  {
    seq(Size(c), j requires 0 <= j < Size(c) => TemplateOctet(mem, first, j))
  }

  /** Template, sequence number and time. */
  function Body(c: Config, mem: Memory, first: Word, k: nat, stamp: Time): (s: seq<Octet>)
    ensures |s| == Size(c) + 18
  {
    Template(c, mem, first) + BigEndian(k % W64, 8) + StampOctets(stamp)
  }

  /** What a dynamic frame ends with: the frame check sequence of everything after the eight
    octets of the preamble. With a template of at most eight octets the CRC circuit is
    never started, and its output is 0xFF all the time. */
  function Ending(c: Config, body: seq<Octet>): (s: seq<Octet>)
    requires |body| >= 8
    ensures |s| == 4
  {
    if Size(c) > 8 then Fcs(Crc(body[8..])) else [0xFF, 0xFF, 0xFF, 0xFF]
  }

  /** Frame k, sent at the given time. */
  function Frame(c: Config, mem: Memory, first: Word, k: nat, stamp: Time): (s: seq<Octet>)
    ensures |s| == FrameLength(c)
  {
    if c.dynamic then
      var b := Body(c, mem, first, k, stamp);
      b + Ending(c, b)
    else
      Template(c, mem, first)
  }

  function FrameLength(c: Config): nat {
    if c.dynamic then Size(c) + 22 else Size(c)
  }

  /** The gap register that applies after frame k. */
  function GapRegister(c: Config, k: nat): nat {
    if c.framesPerBurst > 0 && (k + 1) % c.framesPerBurst == 0 then c.interburstGap else c.interframeGap
  }

  /** The idle cycles that a gap register gives: the register, unless it is below 3. */
  function GapOf(register: nat): (g: nat)
    ensures g >= 3
    ensures 3 <= register < W32 ==> g == register
    ensures register < 3 ==> g == register + W32
  {
    (register - 3) % W32 + 3
  }

  /** The idle cycles after frame k. */
  function Gap(c: Config, k: nat): (g: nat)
    ensures g >= 3
    ensures 3 <= GapRegister(c, k) < W32 ==> g == GapRegister(c, k)
    ensures GapRegister(c, k) < 3 ==> g == GapRegister(c, k) + W32
  {
    GapOf(GapRegister(c, k))
  }

  /** The word of the frame buffer that the address register points to when a frame ends. */
  function WordAfter(c: Config, mem: Memory): Word {
    mem[(1 + Size(c) / 4) % 512]
  }

  /** The word with which frame k begins. A gap of exactly 3 leaves no time to fetch the
    first word of the buffer again. */
  function FirstWord(c: Config, mem: Memory, k: nat): Word {
    if k > 0 && Gap(c, k - 1) == 3 then WordAfter(c, mem) else mem[0]
  }

  function SlotLength(c: Config, k: nat): (n: nat)
    ensures n >= FrameLength(c) + 3
  {
    FrameLength(c) + Gap(c, k)
  }

  /** The cycle in which slot k begins. */
  function SlotStart(c: Config, k: nat): nat {
    if k == 0 then 0 else SlotStart(c, k - 1) + SlotLength(c, k - 1)
  }

  /** What is on the line in cycle p of slot k, when the frame is f. */
  function SlotCycle(f: seq<Octet>, p: nat): Cycle {
    if 2 <= p < |f| + 2 then Cycle(true, f[p - 2]) else IDLE
  }

  // ---- the invariant ----

  /** The parts of the state that hold throughout a slot. */
  ghost predicate Steady(g: Generator, c: Config, k: nat) {
    && g.seqr.run && g.seqr.timestampEnable == c.dynamic
    && g.seqr.frames == k % W64 && (c.totalFrames > 0 ==> k < c.totalFrames)
  }

  /** After the start of slot k the counters are loaded. */
  ghost predicate CountersLoaded(g: Generator, c: Config, k: nat) {
    && g.seqr.dataCounterLast == Size(c) - 1
    && g.seqr.gapCounterLast == Gap(c, k) - 3
    && g.seqr.burstIndex == (if c.framesPerBurst == 0 then 0 else (k + 1) % c.framesPerBurst)
  }

  /** About to start slot k. */
  ghost predicate AtStart(g: Generator, c: Config, mem: Memory, k: nat) {
    && g.seqr.state == 0 && g.pipe.outData == FirstWord(c, mem, k) && g.pipe.address == 0 && g.pipe.crcInit
    && g.seqr.burstIndex == (if c.framesPerBurst == 0 then 0 else k % c.framesPerBurst)
  }

  /** The CRC circuit has taken in the octets 8 to n of the frame. */
  ghost predicate CrcAt(p: Pipeline, f: seq<Octet>, n: nat)
    requires 8 <= n <= |f|
  {
    !p.crcInit && p.crcCalc && p.crcDValid && p.crc.crcReg == Crc(f[8..n])
  }

  ghost predicate CountingTemplate(s: Sequencer, c: Config, j: nat) {
    && s.state == 1 && s.dataCounter == j % W32 && s.gapCounter == 0
    && s.seqnumCounter == 0 && s.timestampCounter == 0 && s.crcCounter == 0
    && (j > 0 ==> s.nextState == (if c.dynamic then 3 else 6))
  }

  /** The words of the frame buffer on their way to octet j. */
  ghost predicate Fetching(p: Pipeline, mem: Memory, first: Word, j: nat) {
    && p.address == (1 + j / 4) % 512
    && p.outDataR == (if j < 4 then first else mem[j / 4 % 512])
    && (j % 4 > 0 ==> p.outData == mem[(1 + j / 4) % 512])
  }

  /** About to read octet j of the template. */
  ghost predicate AtTemplate(g: Generator, c: Config, mem: Memory, first: Word, f: seq<Octet>, stamp: Time, j: nat)
    requires j <= Size(c) <= |f|
  {
    var p := g.pipe;
    && CountingTemplate(g.seqr, c, j) && Fetching(p, mem, first, j)
    && (j > 0 ==> p.dataT0 == f[j - 1])
    && (if j <= 1 then p.gmii == IDLE else p.gmii.en)
    && (j > 1 ==> p.stamp == StampOctets(stamp))
    && (j <= 8 ==> p.crcInit)
    && (c.dynamic && j > 8 ==> CrcAt(p, f, j - 1))
  }

  /** The fetch registers once the template has been read. */
  ghost predicate Fetched(p: Pipeline, c: Config) {
    p.address == (1 + Size(c) / 4) % 512
  }

  /** About to send octet n of a dynamic frame, past the template: n + 1 is being read. */
  ghost predicate AtTrailer(g: Generator, c: Config, mem: Memory, f: seq<Octet>, stamp: Time, n: nat)
    requires c.dynamic && |f| == Size(c) + 22 && Size(c) - 1 <= n < |f|
  {
    var s, p, i := g.seqr, g.pipe, n + 1 - Size(c);
    && s.gapCounter == 0 && p.gmii.en && Fetched(p, c)
    && (i > 0 ==> p.outData == WordAfter(c, mem))
    && (i < 8 ==> s.state == 3 && s.seqnumCounter == i && s.timestampCounter == 0 && s.crcCounter == 0)
    && (8 <= i < 18 ==> s.state == 4 && s.timestampCounter == i - 8 && s.crcCounter == 0)
    && (18 <= i ==> s.state == 5 && s.crcCounter == i - 18)
    && (i < 18 ==> p.stamp == StampOctets(stamp))
    && (i <= 18 ==> p.dataT0 == f[n])
    && (Size(c) > 8 ==> CrcInTrailer(p, f, n, i))
    && (Size(c) <= 8 ==> p.crcInit && (i > 18 ==> p.crc.crc == 0xFF && forall j :: n <= j < |f| ==> f[j] == 0xFF))
  }

  /** i octets past the template the circuit is still taking in, or shifting out. */
  ghost predicate CrcInTrailer(p: Pipeline, f: seq<Octet>, n: nat, i: nat)
    requires 8 <= n < |f| == n + 23 - i
  {
    && (i <= 18 ==> CrcAt(p, f, n))
    && (i > 18 ==> !p.crcInit && !p.crcCalc && p.crcDValid && p.crc.crc == f[n])
    && (i > 18 ==> forall j :: n + 1 <= j < |f| ==> f[j] == FcsOctet(p.crc.crcReg, j - n))
  }

  /** About to send the last octet of a static frame. */
  ghost predicate AtLast(g: Generator, c: Config, f: seq<Octet>)
    requires |f| == Size(c) >= 2
  {
    var s, p := g.seqr, g.pipe;
    s.state == 6 && s.gapCounter == 0 && p.gmii.en && Fetched(p, c) && p.dataT0 == f[|f| - 1]
  }

  /** i cycles into the gap. */
  ghost predicate AtGap(g: Generator, c: Config, mem: Memory, k: nat, i: nat) {
    var s, p := g.seqr, g.pipe;
    && s.state == 2 && s.gapCounter == i && i <= Gap(c, k) - 3
    && p.address == (if i == 0 then (1 + Size(c) / 4) % 512 else 0)
    && p.outData == (if i <= 1 then WordAfter(c, mem) else mem[0])
    && (i > 0 ==> p.crcInit)
  }

  /** The generator is in cycle p of slot k, with frame f sent at `stamp`. */
  ghost predicate At(g: Generator, c: Config, mem: Memory, k: nat, stamp: Time, p: nat)
    requires Usable(c) && p < SlotLength(c, k)
  {
    var first, n := FirstWord(c, mem, k), FrameLength(c);
    var f := Frame(c, mem, first, k, stamp);
    && Steady(g, c, k)
    && (p > 0 ==> CountersLoaded(g, c, k))
    && (if p == 0 then AtStart(g, c, mem, k)
        else if p <= Size(c) then AtTemplate(g, c, mem, first, f, stamp, p - 1)
        else if p < n + 2 then
          if c.dynamic then AtTrailer(g, c, mem, f, stamp, p - 2) else AtLast(g, c, f)
        else AtGap(g, c, mem, k, p - n - 2))
  }

  // ---- one cycle of each phase ----

  lemma NextBurst(k: nat, n: nat)
    requires n > 0
    ensures (k + 1) % n == if k % n + 1 == n then 0 else k % n + 1
  {
    var q := k / n;
    assert k == n * q + k % n;
    if k % n + 1 == n {
      assert k + 1 == n * (q + 1);
      RemainderIs(k + 1, n, q + 1, 0);
    } else {
      RemainderIs(k + 1, n, q, k % n + 1);
    }
  }

  lemma StepFromStart(g: Generator, c: Config, mem: Memory, k: nat, f: seq<Octet>, stamp: Time, now: Time)
    requires Usable(c) && Steady(g, c, k) && AtStart(g, c, mem, k) && Size(c) <= |f|
    ensures var g' := GenerateStep(g, c, mem, false, now);
      && g'.pipe.gmii == IDLE && Steady(g', c, k) && CountersLoaded(g', c, k)
      && AtTemplate(g', c, mem, FirstWord(c, mem, k), f, stamp, 0)
  {
    hide CrcStep;
    hide StampOctets;
    hide Lane;
    if c.framesPerBurst > 0 {
      NextBurst(k, c.framesPerBurst);
    }
  }

  lemma CrcOneMore(f: seq<Octet>, n: nat)
    requires 8 <= n < |f|
    ensures Crc(f[8..n + 1]) == NextCrc(Crc(f[8..n]), f[n])
  {
    assert f[8..n + 1][..n - 8] == f[8..n];
  }

  /** The CRC circuit while the template is being read. */
  lemma CrcInTemplate(g: Generator, c: Config, mem: Memory, first: Word, f: seq<Octet>, stamp: Time, j: nat, now: Time)
    requires Usable(c) && c.dynamic && j < Size(c) < |f| && AtTemplate(g, c, mem, first, f, stamp, j)
    ensures j >= 8 ==> CrcAt(GenerateStep(g, c, mem, false, now).pipe, f, j)
  {
    hide NextCrc;
    hide StampOctets;
    hide Lane;
    if j > 8 {
      CrcOneMore(f, j - 1);
    } else if j == 8 {
      assert f[8..8] == [];
    }
  }

  lemma FetchNext(p: Pipeline, mem: Memory, first: Word, j: nat, q: Pipeline)
    requires Fetching(p, mem, first, j)
    requires q.outData == mem[p.address]
    requires q.address == (if j % 4 == 3 then (p.address + 1) % 512 else p.address)
    requires q.outDataR == (if j % 4 == 3 then p.outData else p.outDataR)
    ensures Fetching(q, mem, first, j + 1)
    ensures Lane(p.outDataR, j % 4) == TemplateOctet(mem, first, j)
  {
    hide Lane;
    if j % 4 == 3 {
      assert (j + 1) / 4 == j / 4 + 1;
      WrapNext(1 + j / 4);
    } else {
      assert (j + 1) / 4 == j / 4;
    }
  }

  lemma WrapNext(n: nat)
    ensures (n % 512 + 1) % 512 == (n + 1) % 512
  {
  }

  // What a clock edge does, state by state.

  function CrcNext(p: Pipeline): CrcRegs {
    CrcStep(p.crc, false, p.dataT0, p.crcCalc, p.crcInit, p.crcDValid)
  }

  lemma EdgeInTemplate(g: Generator, c: Config, mem: Memory, now: Time)
    requires g.seqr.state == 1
    ensures var s, p, h := g.seqr, g.pipe, GenerateStep(g, c, mem, false, now);
      && h.seqr.run == c.run && h.seqr.timestampEnable == c.dynamic
      && h.seqr.nextState == (if s.timestampEnable then 3 else 6)
      && h.seqr.state == (if s.dataCounter < s.dataCounterLast then 1 else s.nextState)
      && h.seqr.dataCounter == (s.dataCounter + 1) % W32 && h.seqr.dataCounterLast == s.dataCounterLast
      && h.seqr.gapCounter == s.gapCounter && h.seqr.gapCounterLast == s.gapCounterLast
      && h.seqr.seqnumCounter == s.seqnumCounter && h.seqr.timestampCounter == s.timestampCounter
      && h.seqr.crcCounter == s.crcCounter && h.seqr.frames == s.frames && h.seqr.burstIndex == s.burstIndex
      && h.pipe == Propagate(p, s, c, now).(crc := CrcNext(p), outData := mem[p.address])
  {
    hide CrcStep;
    hide Propagate;
  }

  lemma PipeInTemplate(p: Pipeline, s: Sequencer, c: Config, now: Time, j: nat)
    requires s.state == 1 && s.dataCounter == j
    ensures var q := Propagate(p, s, c, now);
      && q.dataT0 == Lane(p.outDataR, j % 4) && q.gmii == (if j > 0 then Cycle(true, p.dataT0) else p.gmii)
      && q.stamp == (if j == 1 then StampOctets(now) else p.stamp) && q.crcInit == (j != 8 && p.crcInit)
      && q.address == (if j % 4 == 3 then (p.address + 1) % 512 else p.address)
      && q.outDataR == (if j % 4 == 3 then p.outData else p.outDataR)
  {
    hide StampOctets;
    hide Lane;
  }

  lemma CountersInTemplate(g: Generator, c: Config, mem: Memory, j: nat, k: nat, now: Time)
    requires Usable(c) && Steady(g, c, k) && CountersLoaded(g, c, k)
    requires j < Size(c) && CountingTemplate(g.seqr, c, j)
    ensures var g' := GenerateStep(g, c, mem, false, now);
      && Steady(g', c, k) && CountersLoaded(g', c, k)
      && CountingTemplate(g'.seqr.(state := 1), c, j + 1)
      && g'.seqr.state == (if j + 1 < Size(c) then 1 else if c.dynamic then 3 else 6)
  {
    hide GenerateStep;
    hide CrcNext;
    hide Propagate;
    hide Gap;
    EdgeInTemplate(g, c, mem, now);
    assert j % W32 == j;
  }

  lemma StepInTemplate(g: Generator, c: Config, mem: Memory, first: Word, f: seq<Octet>, stamp: Time,
                       j: nat, k: nat, now: Time)
    requires Usable(c) && Steady(g, c, k) && CountersLoaded(g, c, k)
    requires j < Size(c) <= |f| && AtTemplate(g, c, mem, first, f, stamp, j)
    requires f[j] == TemplateOctet(mem, first, j) && (c.dynamic ==> Size(c) < |f|)
    requires j == 1 ==> now == stamp
    ensures var g' := GenerateStep(g, c, mem, false, now);
      && g'.pipe.gmii == (if j == 0 then IDLE else Cycle(true, f[j - 1]))
      && Steady(g', c, k) && CountersLoaded(g', c, k)
      && AtTemplate(g'.(seqr := g'.seqr.(state := 1)), c, mem, first, f, stamp, j + 1)
      && g'.seqr.state == (if j + 1 < Size(c) then 1 else if c.dynamic then 3 else 6)
  {
    hide GenerateStep;
    hide CrcNext;
    hide StampOctets;
    hide TemplateOctet;
    hide Lane;
    hide Steady;
    hide CountersLoaded;
    hide Gap;
    hide Propagate;
    hide Fetching;
    hide CrcAt;
    var g' := GenerateStep(g, c, mem, false, now);
    EdgeInTemplate(g, c, mem, now);
    CountersInTemplate(g, c, mem, j, k, now);
    PipeInTemplate(g.pipe, g.seqr, c, now, j);
    FetchNext(g.pipe, mem, first, j, g'.pipe);
    if c.dynamic {
      CrcInTemplate(g, c, mem, first, f, stamp, j, now);
    }
  }

  /** The octets of a dynamic frame after its template. */
  lemma {:induction false} TrailerOctets(c: Config, mem: Memory, first: Word, k: nat, stamp: Time, i: nat)
    requires Usable(c) && c.dynamic && i < 18
    ensures Frame(c, mem, first, k, stamp)[Size(c) + i]
         == if i < 8 then BigEndian(k % W64, 8)[i] else StampOctets(stamp)[i - 8]
  {
    hide StampOctets;
    hide Crc;
    hide Fcs;
  }

  lemma FcsOctets(c: Config, mem: Memory, first: Word, k: nat, stamp: Time, j: nat)
    requires Usable(c) && c.dynamic && Size(c) > 8 && j < 4
    ensures var f, n := Frame(c, mem, first, k, stamp), Size(c) + 18;
      f[n + j] == FcsOctet(Crc(f[8..n]), j)
  {
    hide StampOctets;
    hide Crc;
    hide FcsOctet;
    hide Template;
    var b := Body(c, mem, first, k, stamp);
    var f, n := Frame(c, mem, first, k, stamp), Size(c) + 18;
    assert f[8..n] == b[8..];
    assert f[n + j] == Fcs(Crc(b[8..]))[j];
  }

  lemma EdgeInNumber(g: Generator, c: Config, mem: Memory, now: Time)
    requires g.seqr.state == 3 && g.seqr.seqnumCounter < 8
    ensures var s, p, h := g.seqr, g.pipe, GenerateStep(g, c, mem, false, now);
      && h.seqr == s.(seqnumCounter := s.seqnumCounter + 1, state := if s.seqnumCounter == 7 then 4 else 3,
                      run := c.run, timestampEnable := c.dynamic)
      && h.pipe == p.(dataT0 := BigEndian(s.frames, 8)[s.seqnumCounter], gmii := p.gmii.(d := p.dataT0),
                      crc := CrcNext(p), outData := mem[p.address])
  {
    hide CrcStep;
    hide BigEndian;
  }

  lemma EdgeInTime(g: Generator, c: Config, mem: Memory, now: Time)
    requires g.seqr.state == 4 && g.seqr.timestampCounter < 10
    ensures var s, p, h := g.seqr, g.pipe, GenerateStep(g, c, mem, false, now);
      && h.seqr == s.(timestampCounter := s.timestampCounter + 1, state := if s.timestampCounter == 9 then 5 else 4,
                      run := c.run, timestampEnable := c.dynamic)
      && h.pipe == p.(dataT0 := p.stamp[s.timestampCounter], gmii := p.gmii.(d := p.dataT0),
                      crc := CrcNext(p), outData := mem[p.address])
  {
    hide CrcStep;
  }

  lemma EdgeInFcs(g: Generator, c: Config, mem: Memory, now: Time)
    requires g.seqr.state == 5 && g.seqr.crcCounter < 5
    ensures var s, p, h := g.seqr, g.pipe, GenerateStep(g, c, mem, false, now);
      && h.seqr == s.(crcCounter := s.crcCounter + 1, state := if s.crcCounter == 4 then 2 else 5,
                      run := c.run, timestampEnable := c.dynamic)
      && h.pipe == p.(crcCalc := false, gmii := Cycle(true, if s.crcCounter == 0 then p.dataT0 else p.crc.crc),
                      crc := CrcNext(p), outData := mem[p.address])
  {
    hide CrcStep;
  }

  /** The circuit takes in octet n of the frame. */
  lemma CrcTakesIn(p: Pipeline, f: seq<Octet>, n: nat, q: Pipeline)
    requires 8 <= n < |f| && CrcAt(p, f, n) && p.dataT0 == f[n]
    requires q.crcInit == p.crcInit && q.crcCalc == p.crcCalc && q.crcDValid == p.crcDValid && q.crc == CrcNext(p)
    ensures CrcAt(q, f, n + 1)
  {
    hide NextCrc;
    CrcOneMore(f, n);
    hide Crc;
  }

  lemma StepInNumber(g: Generator, c: Config, mem: Memory, first: Word, f: seq<Octet>, stamp: Time,
                     n: nat, k: nat, now: Time)
    requires Usable(c) && c.dynamic && Steady(g, c, k) && CountersLoaded(g, c, k)
    requires f == Frame(c, mem, first, k, stamp) && Size(c) - 1 <= n < Size(c) + 7
    requires AtTrailer(g, c, mem, f, stamp, n)
    ensures var g' := GenerateStep(g, c, mem, false, now);
      && g'.pipe.gmii == Cycle(true, f[n]) && Steady(g', c, k) && CountersLoaded(g', c, k)
      && AtTrailer(g', c, mem, f, stamp, n + 1)
  {
    hide GenerateStep;
    hide StampOctets;
    hide BigEndian;
    hide Frame;
    hide CrcNext;
    hide CrcAt;
    EdgeInNumber(g, c, mem, now);
    TrailerOctets(c, mem, first, k, stamp, n + 1 - Size(c));
    if Size(c) > 8 {
      CrcTakesIn(g.pipe, f, n, GenerateStep(g, c, mem, false, now).pipe);
    }
  }

  lemma StepInTime(g: Generator, c: Config, mem: Memory, first: Word, f: seq<Octet>, stamp: Time,
                   n: nat, k: nat, now: Time)
    requires Usable(c) && c.dynamic && Steady(g, c, k) && CountersLoaded(g, c, k)
    requires f == Frame(c, mem, first, k, stamp) && Size(c) + 7 <= n < Size(c) + 17
    requires AtTrailer(g, c, mem, f, stamp, n)
    ensures var g' := GenerateStep(g, c, mem, false, now);
      && g'.pipe.gmii == Cycle(true, f[n]) && Steady(g', c, k) && CountersLoaded(g', c, k)
      && AtTrailer(g', c, mem, f, stamp, n + 1)
  {
    hide GenerateStep;
    hide StampOctets;
    hide BigEndian;
    hide Frame;
    hide CrcNext;
    hide CrcAt;
    EdgeInTime(g, c, mem, now);
    TrailerOctets(c, mem, first, k, stamp, n + 1 - Size(c));
    if Size(c) > 8 {
      CrcTakesIn(g.pipe, f, n, GenerateStep(g, c, mem, false, now).pipe);
    }
  }

  lemma StepInFields(g: Generator, c: Config, mem: Memory, first: Word, f: seq<Octet>, stamp: Time,
                     n: nat, k: nat, now: Time)
    requires Usable(c) && c.dynamic && Steady(g, c, k) && CountersLoaded(g, c, k)
    requires f == Frame(c, mem, first, k, stamp) && Size(c) - 1 <= n < Size(c) + 17
    requires AtTrailer(g, c, mem, f, stamp, n)
    ensures var g' := GenerateStep(g, c, mem, false, now);
      && g'.pipe.gmii == Cycle(true, f[n]) && Steady(g', c, k) && CountersLoaded(g', c, k)
      && AtTrailer(g', c, mem, f, stamp, n + 1)
  {
    hide GenerateStep;
    hide Frame;
    hide AtTrailer;
    hide Steady;
    hide CountersLoaded;
    if n < Size(c) + 7 {
      StepInNumber(g, c, mem, first, f, stamp, n, k, now);
    } else {
      StepInTime(g, c, mem, first, f, stamp, n, k, now);
    }
  }

  /** The CRC circuit takes in the last octet that the frame check sequence covers. */
  lemma CrcComplete(p: Pipeline, c: Config, mem: Memory, first: Word, f: seq<Octet>, stamp: Time, k: nat, r: CrcRegs)
    requires Usable(c) && c.dynamic && Size(c) > 8 && f == Frame(c, mem, first, k, stamp)
    requires var n := Size(c) + 17; CrcAt(p, f, n) && p.dataT0 == f[n]
    requires r == CrcNext(p)
    ensures var n := Size(c) + 18;
      r.crc == f[n] && forall j :: n < j < |f| ==> f[j] == FcsOctet(r.crcReg, j - n)
  {
    hide StampOctets;
    hide Frame;
    hide NextCrc;
    hide Crc;
    hide TopOctet;
    hide FcsOctet;
    var n := Size(c) + 18;
    CrcOneMore(f, n - 1);
    TopOctetIsFcs(r.crcReg);
    forall j | n <= j < |f|
      ensures f[j] == FcsOctet(r.crcReg, j - n)
    {
      FcsOctets(c, mem, first, k, stamp, j - n);
    }
  }

  lemma StepToFcs(g: Generator, c: Config, mem: Memory, first: Word, f: seq<Octet>, stamp: Time,
                  n: nat, k: nat, now: Time)
    requires Usable(c) && c.dynamic && Steady(g, c, k) && CountersLoaded(g, c, k)
    requires f == Frame(c, mem, first, k, stamp) && n == Size(c) + 17
    requires AtTrailer(g, c, mem, f, stamp, n)
    ensures var g' := GenerateStep(g, c, mem, false, now);
      && g'.pipe.gmii == Cycle(true, f[n]) && Steady(g', c, k) && CountersLoaded(g', c, k)
      && AtTrailer(g', c, mem, f, stamp, n + 1)
  {
    hide GenerateStep;
    hide StampOctets;
    hide Frame;
    hide CrcNext;
    hide FcsOctet;
    EdgeInFcs(g, c, mem, now);
    if Size(c) > 8 {
      CrcComplete(g.pipe, c, mem, first, f, stamp, k, CrcNext(g.pipe));
    } else {
      EndingOctets(c, mem, first, k, stamp);
      CrcStaysInitialised(g.pipe);
    }
  }

  lemma CrcStaysInitialised(p: Pipeline)
    requires p.crcInit
    ensures CrcNext(p).crc == 0xFF
  {
  }

  lemma EndingOctets(c: Config, mem: Memory, first: Word, k: nat, stamp: Time)
    requires Usable(c) && c.dynamic && Size(c) <= 8
    ensures var f := Frame(c, mem, first, k, stamp);
      forall j :: Size(c) + 18 <= j < |f| ==> f[j] == 0xFF
  {
    hide StampOctets;
    hide Template;
  }

  /** The circuit shifts out octet n of the frame. */
  lemma CrcShifts(p: Pipeline, f: seq<Octet>, n: nat, i: nat, q: Pipeline)
    requires 8 <= n && n + 1 < |f| == n + 23 - i && 18 < i && CrcInTrailer(p, f, n, i)
    requires q.crcInit == p.crcInit && !q.crcCalc && q.crcDValid == p.crcDValid
    requires q.crc == CrcNext(p)
    ensures CrcInTrailer(q, f, n + 1, i + 1)
  {
    hide TopOctet;
    hide FcsOctet;
    hide ShiftCrc;
    var r := p.crc.crcReg;
    var s := ShiftCrc(r);
    TopOctetIsFcs(r);
    TopOctetIsFcs(s);
    assert f[n + 1] == FcsOctet(r, 1);
    assert FcsOctet(s, 0) == FcsOctet(r, 0 + 1);
    forall j | n + 2 <= j < |f|
      ensures f[j] == FcsOctet(s, j - (n + 1))
    {
      assert f[j] == FcsOctet(r, j - (n + 1) + 1);
    }
  }

  lemma StepInFcs(g: Generator, c: Config, mem: Memory, f: seq<Octet>, stamp: Time, n: nat, k: nat, now: Time)
    requires Usable(c) && c.dynamic && Steady(g, c, k) && CountersLoaded(g, c, k)
    requires Size(c) + 18 <= n < |f| == Size(c) + 22
    requires AtTrailer(g, c, mem, f, stamp, n)
    ensures var g' := GenerateStep(g, c, mem, false, now);
      && g'.pipe.gmii == Cycle(true, f[n]) && Steady(g', c, k) && CountersLoaded(g', c, k)
      && (if n + 1 < |f| then AtTrailer(g', c, mem, f, stamp, n + 1) else AtGap(g', c, mem, k, 0))
  {
    hide GenerateStep;
    hide StampOctets;
    hide CrcNext;
    hide FcsOctet;
    EdgeInFcs(g, c, mem, now);
    if Size(c) <= 8 {
      CrcStaysInitialised(g.pipe);
    } else if n + 1 < |f| {
      CrcShifts(g.pipe, f, n, n + 1 - Size(c), GenerateStep(g, c, mem, false, now).pipe);
    }
  }

  lemma StepInLast(g: Generator, c: Config, mem: Memory, f: seq<Octet>, k: nat, now: Time)
    requires Usable(c) && Steady(g, c, k) && CountersLoaded(g, c, k) && |f| == Size(c) && AtLast(g, c, f)
    ensures var g' := GenerateStep(g, c, mem, false, now);
      && g'.pipe.gmii == Cycle(true, f[|f| - 1]) && Steady(g', c, k) && CountersLoaded(g', c, k)
      && AtGap(g', c, mem, k, 0)
  {
    hide CrcStep;
    hide StampOctets;
    hide Lane;
  }

  /** The start of the next slot, or the end of the stream. */
  ghost predicate AtEnd(g: Generator, c: Config, mem: Memory, k: nat) {
    if c.totalFrames > 0 && k + 1 == c.totalFrames then Finished(g, c)
    else Steady(g, c, k + 1) && AtStart(g, c, mem, k + 1)
  }

  ghost predicate Finished(g: Generator, c: Config) {
    && g.seqr.run && g.seqr.state == 0 && g.seqr.frames == c.totalFrames > 0
    && g.pipe.address == 0 && g.pipe.crcInit && g.pipe.gmii == IDLE
  }

  lemma StepInGap(g: Generator, c: Config, mem: Memory, k: nat, i: nat, now: Time)
    requires Usable(c) && Steady(g, c, k) && CountersLoaded(g, c, k) && AtGap(g, c, mem, k, i)
    ensures var g' := GenerateStep(g, c, mem, false, now);
      && g'.pipe.gmii == IDLE
      && (if i < Gap(c, k) - 3 then Steady(g', c, k) && CountersLoaded(g', c, k) && AtGap(g', c, mem, k, i + 1)
          else AtEnd(g', c, mem, k))
  {
    hide CrcStep;
    hide StampOctets;
    hide Lane;
    hide GapRegister;
    hide AtEnd;
    hide FirstWord;
    if i == Gap(c, k) - 3 {
      GapEnds(g, c, mem, k, i, now);
    }
  }

  lemma GapEnds(g: Generator, c: Config, mem: Memory, k: nat, i: nat, now: Time)
    requires Usable(c) && Steady(g, c, k) && CountersLoaded(g, c, k) && AtGap(g, c, mem, k, i) && i == Gap(c, k) - 3
    ensures AtEnd(GenerateStep(g, c, mem, false, now), c, mem, k)
  {
    hide CrcStep;
    hide StampOctets;
    hide Lane;
    hide Gap;
    var g' := GenerateStep(g, c, mem, false, now);
    assert FirstWord(c, mem, k + 1) == g'.pipe.outData;
    hide FirstWord;
    NextNumber(k);
  }

  lemma NextNumber(k: nat)
    ensures (k % W64 + 1) % W64 == (k + 1) % W64
    ensures k + 1 < W64 ==> (k + 1) % W64 == k + 1
  {
  }

  lemma StepFinished(g: Generator, c: Config, mem: Memory, now: Time)
    requires Usable(c) && Finished(g, c)
    ensures var g' := GenerateStep(g, c, mem, false, now);
      g'.pipe.gmii == IDLE && Finished(g', c)
  {
    hide CrcStep;
    hide StampOctets;
    hide Lane;
  }
}
