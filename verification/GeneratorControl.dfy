/** The run bit within a frame, and the packet counter. */
module GeneratorControl {
  import opened Arithmetic
  import opened Octets
  import opened EthernetCrc8
  import opened Gmii
  import opened BramIo
  import opened TrafficGenerator
  import opened GeneratorStream
  import opened GeneratorRuns

  // ---- the run bit ----

  /** The state after t cycles, when runs[i] is the run bit in cycle i. */
  function DrivenAfter(g: Generator, c: Config, mem: Memory, times: seq<Time>, runs: seq<bool>, t: nat): Generator
    requires t <= |runs| <= |times|
  {
    if t == 0 then g
    else GenerateStep(DrivenAfter(g, c, mem, times, runs, t - 1), c.(run := runs[t - 1]), mem, false, times[t - 1])
  }

  predicate SameButRun(g: Generator, h: Generator) {
    h == g.(seqr := g.seqr.(run := h.seqr.run))
  }

  lemma SequenceIgnoresRun(s: Sequencer, c: Config, run: bool)
    ensures Sequence(s, c.(run := run)) == Sequence(s, c)
    ensures s.state != 0 ==> Sequence(s.(run := run), c) == Sequence(s, c).(run := run)
  {
  }

  lemma PropagateIgnoresRun(p: Pipeline, s: Sequencer, c: Config, now: Time, run: bool)
    ensures Propagate(p, s, c.(run := run), now) == Propagate(p, s, c, now)
    ensures s.state != 0 ==> Propagate(p, s.(run := run), c, now) == Propagate(p, s, c, now)
  {
    hide StampOctets;
    hide Lane;
    hide BigEndian;
  }

  /** The run bit is looked at in state 0 only. */
  lemma RunIsIgnored(g: Generator, h: Generator, c: Config, run: bool, mem: Memory, now: Time)
    requires SameButRun(g, h) && (g.seqr.state == 0 ==> g.seqr.run == h.seqr.run)
    ensures SameButRun(GenerateStep(g, c, mem, false, now), GenerateStep(h, c.(run := run), mem, false, now))
    ensures GenerateStep(h, c.(run := run), mem, false, now).seqr.run == run
  {
    hide CrcStep;
    hide Sequence;
    hide Propagate;
    SequenceIgnoresRun(h.seqr, c, run);
    PropagateIgnoresRun(h.pipe, h.seqr, c, now, run);
    SequenceIgnoresRun(g.seqr, c, h.seqr.run);
    PropagateIgnoresRun(g.pipe, g.seqr, c, now, h.seqr.run);
    if g.seqr.state == 0 {
      assert h == g;
    }
  }

  /** Cycle p of a slot in which the time of the third cycle is `stamp`. */
  ghost predicate TimedFrom(p: nat, times: seq<Time>, stamp: Time) {
    p <= 2 < p + |times| ==> times[2 - p] == stamp
  }

  lemma {:induction false} StaysInSlot(g: Generator, c: Config, mem: Memory, k: nat, stamp: Time, p: nat,
                                       times: seq<Time>, q: nat)
    requires Usable(c) && p < SlotLength(c, k) && At(g, c, mem, k, stamp, p) && TimedFrom(p, times, stamp)
    requires q <= |times| && p + q <= SlotLength(c, k)
    ensures Continues(GeneratorAfter(g, c, mem, times, q), c, mem, k, stamp, p + q)
  {
    hide At;
    hide AtEnd;
    hide GenerateStep;
    hide SlotLength;
    if q > 0 {
      StaysInSlot(g, c, mem, k, stamp, p, times, q - 1);
      CycleOfSlot(GeneratorAfter(g, c, mem, times, q - 1), c, mem, k, stamp, p + q - 1, times[q - 1]);
    }
  }

  lemma NotIdleInSlot(g: Generator, c: Config, mem: Memory, k: nat, stamp: Time, p: nat)
    requires Usable(c) && 0 < p < SlotLength(c, k) && At(g, c, mem, k, stamp, p)
    ensures g.seqr.state != 0
  {
    hide Frame;
    hide Fetching;
    hide CrcInTrailer;
    hide CrcAt;
    hide Steady;
    hide CountersLoaded;
  }

  /** Whatever is written to the run bit while a frame and its gap are sent, the state is that of
    a generator that goes on running, but for the bit itself. */
  lemma {:induction false} FrameGoesOn(g: Generator, c: Config, mem: Memory, k: nat, stamp: Time, p: nat,
                                       times: seq<Time>, runs: seq<bool>, q: nat)
    requires Usable(c) && p < SlotLength(c, k) && At(g, c, mem, k, stamp, p) && TimedFrom(p, times, stamp)
    requires q <= |runs| <= |times| && p + q <= SlotLength(c, k)
    ensures SameButRun(GeneratorAfter(g, c, mem, times, q), DrivenAfter(g, c, mem, times, runs, q))
    ensures q > 0 ==> DrivenAfter(g, c, mem, times, runs, q).seqr.run == runs[q - 1]
  {
    hide At;
    hide AtEnd;
    hide GenerateStep;
    hide SlotLength;
    hide SameButRun;
    if q == 0 {
      SameAsItself(g);
    } else {
      var h, d := GeneratorAfter(g, c, mem, times, q - 1), DrivenAfter(g, c, mem, times, runs, q - 1);
      FrameGoesOn(g, c, mem, k, stamp, p, times, runs, q - 1);
      if p + q - 1 > 0 {
        StaysInSlot(g, c, mem, k, stamp, p, times, q - 1);
        NotIdleInSlot(h, c, mem, k, stamp, p + q - 1);
      }
      RunIsIgnored(h, d, c, runs[q - 1], mem, times[q - 1]);
    }
  }

  lemma SameAsItself(g: Generator)
    ensures SameButRun(g, g)
  {
  }

  /** So frame k goes out whole: the line carries it octet by octet, as in a slot. */
  lemma {:induction false} FrameIsFinished(g: Generator, c: Config, mem: Memory, k: nat, stamp: Time, p: nat,
                                           times: seq<Time>, runs: seq<bool>, q: nat)
    requires Usable(c) && p < SlotLength(c, k) && At(g, c, mem, k, stamp, p) && TimedFrom(p, times, stamp)
    requires 0 < q <= |runs| <= |times| && p + q <= SlotLength(c, k)
    ensures DrivenAfter(g, c, mem, times, runs, q).pipe.gmii
         == SlotCycle(Frame(c, mem, FirstWord(c, mem, k), k, stamp), p + q - 1)
  {
    hide At;
    hide AtEnd;
    hide GenerateStep;
    hide SlotLength;
    hide SlotCycle;
    FrameGoesOn(g, c, mem, k, stamp, p, times, runs, q);
    StaysInSlot(g, c, mem, k, stamp, p, times, q - 1);
    CycleOfSlot(GeneratorAfter(g, c, mem, times, q - 1), c, mem, k, stamp, p + q - 1, times[q - 1]);
  }

  /** And when the bit is clear at the end of the gap, the generator stops there. */
  lemma {:induction false} StopsAfterFrame(g: Generator, c: Config, mem: Memory, k: nat, stamp: Time, p: nat,
                                           times: seq<Time>, runs: seq<bool>)
    requires Usable(c) && p < SlotLength(c, k) && At(g, c, mem, k, stamp, p) && TimedFrom(p, times, stamp)
    requires p + |runs| == SlotLength(c, k) && |runs| <= |times| && !runs[|runs| - 1]
    ensures Stopped(DrivenAfter(g, c, mem, times, runs, |runs|))
  {
    hide At;
    hide GenerateStep;
    hide GeneratorAfter;
    hide DrivenAfter;
    hide Frame;
    var q := |runs|;
    FrameGoesOn(g, c, mem, k, stamp, p, times, runs, q);
    FrameIsFinished(g, c, mem, k, stamp, p, times, runs, q);
    StaysInSlot(g, c, mem, k, stamp, p, times, q);
    hide FirstWord;
  }

  // ---- the packet counter ----

  /** The templates that have gone out since the start: those of the frames that have ended, and
    that of the present one. */
  function Templates(s: Sequencer): nat {
    s.frames + if s.state in {2, 3, 4, 5, 6} then 1 else 0
  }

  ghost predicate Counting(s: Sequencer, before: nat) {
    && s.run && s.state <= 6 && s.pkts == (before + Templates(s)) % W64
    && (s.state == 1 ==> s.dataCounterLast > 0 && (s.dataCounter > 0 ==> s.nextState in {3, 6}))
  }

  // What a clock edge does to the registers that matter here.

  lemma CountingIdle(s: Sequencer, c: Config)
    requires Usable(c) && s.run && s.state == 0
    ensures var t := Sequence(s, c);
      && t.run && t.state <= 1 && t.pkts == s.pkts && t.frames == s.frames
      && t.dataCounter == 0 && t.dataCounterLast > 0
  {
  }

  lemma CountingTemplate(s: Sequencer, c: Config)
    requires s.state == 1
    ensures var t := Sequence(s, c);
      && t.run == s.run && t.frames == s.frames && t.dataCounterLast == s.dataCounterLast && t.nextState in {3, 6}
      && t.state == (if s.dataCounter < s.dataCounterLast then 1 else s.nextState)
      && t.pkts == (if s.dataCounter < s.dataCounterLast then s.pkts else (s.pkts + 1) % W64)
  {
  }

  lemma CountingRest(s: Sequencer, c: Config)
    requires 2 <= s.state <= 6
    ensures var t := Sequence(s, c);
      && t.run == s.run && t.pkts == s.pkts && t.state in {0, 2, 3, 4, 5, 6}
      && t.frames == (if t.state == 0 then (s.frames + 1) % W64 else s.frames)
  {
  }

  lemma CountingSequence(s: Sequencer, c: Config, before: nat)
    requires Usable(c) && Counting(s, before)
    ensures Counting(Sequence(s, c), before)
  {
    hide Sequence;
    hide Usable;
    if s.state == 0 {
      CountingIdle(s, c);
    } else if s.state == 1 {
      CountingTemplate(s, c);
      ModuloOfSum(before + s.frames, 1, W64);
    } else {
      CountingRest(s, c);
      ModuloOfSum(s.frames + 1, before, W64);
    }
  }

  lemma CountingStep(g: Generator, c: Config, mem: Memory, now: Time, before: nat)
    requires Usable(c) && Counting(g.seqr, before)
    ensures Counting(GenerateStep(g, c, mem, false, now).seqr, before)
  {
    CountingSequence(g.seqr, c, before);
    hide CrcStep;
    hide Propagate;
    hide Sequence;
  }

  /** In every cycle `pkts_reg` is what it was before the start and the templates that have gone
    out since, modulo 2 to the power 64. */
  lemma {:induction false} PacketsAreCounted(g: Generator, c: Config, mem: Memory, times: seq<Time>, t: nat)
    requires Usable(c) && Ready(g, c, mem) && t <= |times| && g.seqr.pkts < W64
    ensures Counting(GeneratorAfter(g, c, mem, times, t).seqr, g.seqr.pkts)
  {
    hide GenerateStep;
    if t > 0 {
      hide Ready;
      hide Counting;
      PacketsAreCounted(g, c, mem, times, t - 1);
      CountingStep(GeneratorAfter(g, c, mem, times, t - 1), c, mem, times[t - 1], g.seqr.pkts);
    }
  }
}
