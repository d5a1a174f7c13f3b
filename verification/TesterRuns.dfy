/** Whole runs of the tester: what each of its cores sees. */
module TesterRuns {
  import opened Arithmetic
  import opened Gmii
  import opened TrafficAnalyzer
  import opened Receiver
  import opened ReceiverRuns
  import opened TrafficGenerator
  import opened GeneratorStream
  import opened GeneratorRuns
  import opened RtClock
  import opened FilterGmii
  import opened StreamSlots
  import opened FilteredStream
  import opened TesterLoop

  function TesterRun(s: Tester, u: Setup, ins: seq<ClockInput>, t: nat): Tester
    requires t <= |ins|
  {
    if t == 0 then s else TesterStep(TesterRun(s, u, ins, t - 1), u, ins[t - 1])
  }

  /** The clock runs on its own and shows x nanoseconds. */
  predicate Ticking(r: ClockRegs, ratio: Ratio, x: nat) {
    r.out == TimeOf(x) && r.free == TimeOf(x + ratio)
  }

  predicate NoPulses(ins: seq<ClockInput>) {
    forall i :: 0 <= i < |ins| ==> !ins[i].enabled
  }

  /** Everything is set up, nothing has been sent. */
  ghost predicate Start(s: Tester, u: Setup, x: nat) {
    && Usable(u.gen) && u.minGap < W32
    && Ticking(s.clock, u.ratio, x) && Ready(s.gen, u.gen, u.mem)
    && Waiting(s.filter, u.minGap) && s.filter.out == IDLE
  }

  // ---- the clock ----

  function Times(x: nat, ratio: Ratio, n: nat): (ts: seq<Time>)
    ensures |ts| == n
  {
    seq(n, t requires 0 <= t < n => TimeOf(x + t * ratio))
  }

  lemma {:induction false} ClockTicks(s: Tester, u: Setup, x: nat, ins: seq<ClockInput>, t: nat)
    requires Ticking(s.clock, u.ratio, x) && NoPulses(ins) && t <= |ins|
    ensures Ticking(TesterRun(s, u, ins, t).clock, u.ratio, x + t * u.ratio)
  {
    hide TimeOf;
    hide FreeStep;
    hide PpsStep;
    hide GenerateStep;
    hide FilterStep;
    hide ReceiverStep;
    if t > 0 {
      ClockTicks(s, u, x, ins, t - 1);
      FreeStepAdds(x + (t - 1) * u.ratio + u.ratio, u.ratio);
      assert t * u.ratio == (t - 1) * u.ratio + u.ratio;
    } else {
      assert 0 * u.ratio == 0;
    }
  }

  // ---- the generator ----

  lemma {:induction false} GeneratorSeesClock(s: Tester, u: Setup, x: nat, ins: seq<ClockInput>, t: nat)
    requires Ticking(s.clock, u.ratio, x) && NoPulses(ins) && t <= |ins|
    ensures TesterRun(s, u, ins, t).gen == GeneratorAfter(s.gen, u.gen, u.mem, Times(x, u.ratio, |ins|), t)
  {
    hide TimeOf;
    hide ClockStep;
    hide GenerateStep;
    hide FilterStep;
    hide ReceiverStep;
    if t > 0 {
      GeneratorSeesClock(s, u, x, ins, t - 1);
      ClockTicks(s, u, x, ins, t - 1);
    }
  }

  lemma {:induction false} SentLine(s: Tester, u: Setup, x: nat, ins: seq<ClockInput>, t: nat)
    requires Start(s, u, x) && NoPulses(ins) && t < |ins|
    ensures TesterRun(s, u, ins, t).gen.pipe.gmii == Registered(u.gen, u.mem, Times(x, u.ratio, |ins|))[t]
  {
    hide TimeOf;
    hide GenerateStep;
    hide TesterStep;
    hide StreamAt;
    hide Waiting;
    var times := Times(x, u.ratio, |ins|);
    GeneratorSeesClock(s, u, x, ins, t);
    if t > 0 {
      hide Ready;
      OutputIsStream(s.gen, u.gen, u.mem, times, t - 1);
    }
  }

  // ---- the filter ----

  lemma {:induction false} FilterRuns(s: Tester, u: Setup, x: nat, ins: seq<ClockInput>, t: nat)
    requires Start(s, u, x) && NoPulses(ins) && t <= |ins|
    ensures TesterRun(s, u, ins, t).filter
         == FilterRun(s.filter, u.minGap, Registered(u.gen, u.mem, Times(x, u.ratio, |ins|)), t)
  {
    hide TimeOf;
    hide ClockStep;
    hide GenerateStep;
    hide FilterStep;
    hide ReceiverStep;
    hide Ready;
    if t > 0 {
      FilterRuns(s, u, x, ins, t - 1);
      SentLine(s, u, x, ins, t - 1);
    }
  }

  // ---- the analyzer ----

  /** The cycles from the stamp of the generator to that of the analyzer. */
  function Delay(u: Setup): nat {
    if u.filtered then 3 else 1
  }

  /** The gap that a frame needs to arrive. */
  function Least(u: Setup): nat
    requires u.minGap < W32
  {
    if u.filtered then LeastGap(u.minGap) else 0
  }

  /** What is left of the stream in cycle t. */
  function PassedAt(u: Setup, times: seq<Time>, t: nat): Cycle
    requires Usable(u.gen) && u.minGap < W32
  {
    if Kept(u.gen, Least(u), SlotOf(u.gen, t, 0)) then StreamAt(u.gen, u.mem, times, t) else IDLE
  }

  function ArrivingAt(u: Setup, times: seq<Time>, t: nat): Cycle
    requires Usable(u.gen) && u.minGap < W32
  {
    if t < Delay(u) then IDLE else PassedAt(u, times, t - Delay(u))
  }

  lemma {:induction false} FilteredLine(u: Setup, times: seq<Time>, t: nat)
    requires Usable(u.gen) && u.minGap < W32 && u.filtered && 0 < t < |times|
    ensures var x := Registered(u.gen, u.mem, times);
      (if Forwarded(x, Least(u), t) then x[t] else IDLE) == PassedAt(u, times, t - 1)
  {
    hide StreamAt;
    hide Forwarded;
    hide Kept;
    ForwardedIsKept(u.gen, u.mem, times, Least(u), t);
    EnabledInFrame(u.gen, u.mem, times, t - 1);
  }

  lemma {:induction false} ArrivingLine(s: Tester, u: Setup, x: nat, ins: seq<ClockInput>, t: nat)
    requires Start(s, u, x) && NoPulses(ins) && t < |ins|
    ensures LineToAnalyzer(TesterRun(s, u, ins, t), u.filtered) == ArrivingAt(u, Times(x, u.ratio, |ins|), t)
  {
    hide Ready;
    hide StreamAt;
    hide TesterStep;
    hide TimeOf;
    hide PassedAt;
    var times := Times(x, u.ratio, |ins|);
    if u.filtered {
      FilterRuns(s, u, x, ins, t);
      FilterForwards(s.filter, u.minGap, Registered(u.gen, u.mem, times), t);
      if t > 2 {
        FilteredLine(u, times, t - 2);
      }
    } else {
      SentLine(s, u, x, ins, t);
      if t > 0 {
        DirectLine(u, times, t - 1);
      }
    }
    hide FilterInv;
    hide FilterStep;
    hide Forwarded;
  }

  lemma DirectLine(u: Setup, times: seq<Time>, t: nat)
    requires Usable(u.gen) && u.minGap < W32 && !u.filtered
    ensures PassedAt(u, times, t) == StreamAt(u.gen, u.mem, times, t)
  {
    hide StreamAt;
    AllKept(u.gen, 0, SlotOf(u.gen, t, 0));
  }

  function Arrivals(u: Setup, times: seq<Time>): (s: seq<Input>)
    requires Usable(u.gen) && u.minGap < W32
    ensures |s| == |times|
  {
    seq(|times|, t requires 0 <= t < |times| => Input(ArrivingAt(u, times, t), times[t], true, false))
  }

  lemma {:induction false} AnalyzerSees(s: Tester, u: Setup, x: nat, ins: seq<ClockInput>, t: nat)
    requires Start(s, u, x) && NoPulses(ins) && t <= |ins|
    ensures TesterRun(s, u, ins, t).rx == ReceiverRun(s.rx, Arrivals(u, Times(x, u.ratio, |ins|))[..t])
  {
    hide TimeOf;
    hide TesterStep;
    hide InputToAnalyzer;
    hide ReceiverStep;
    hide ArrivingAt;
    hide Ready;
    hide Waiting;
    if t > 0 {
      AnalyzerSees(s, u, x, ins, t - 1);
      var arrivals := Arrivals(u, Times(x, u.ratio, |ins|));
      AnalyzerInput(s, u, x, ins, t - 1);
      LastStep(s, u, ins, t);
      assert arrivals[..t][..t - 1] == arrivals[..t - 1];
      assert arrivals[..t][t - 1] == arrivals[t - 1];
    }
  }

  lemma {:induction false} AnalyzerInput(s: Tester, u: Setup, x: nat, ins: seq<ClockInput>, t: nat)
    requires Start(s, u, x) && NoPulses(ins) && t < |ins|
    ensures InputToAnalyzer(TesterRun(s, u, ins, t), u, true) == Arrivals(u, Times(x, u.ratio, |ins|))[t]
  {
    hide TimeOf;
    hide TesterStep;
    hide ArrivingAt;
    hide LineToAnalyzer;
    hide Ready;
    hide Waiting;
    ClockTicks(s, u, x, ins, t);
    ArrivingLine(s, u, x, ins, t);
  }

  lemma LastStep(s: Tester, u: Setup, ins: seq<ClockInput>, t: nat)
    requires 0 < t <= |ins|
    ensures var before := TesterRun(s, u, ins, t - 1);
      TesterRun(s, u, ins, t).rx == ReceiverStep(before.rx, InputToAnalyzer(before, u, true))
  {
    hide ReceiverStep;
    hide GenerateStep;
    hide ClockStep;
    hide FilterStep;
  }
}
