/** The clock that follows a pulse per second. */
module PpsClock {
  import opened Arithmetic
  import opened Gmii
  import opened RtClock

  function PpsRun(r: PpsRegs, ratio: Ratio, ins: seq<ClockInput>): PpsRegs {
    if ins == [] then r else PpsStep(PpsRun(r, ratio, ins[..|ins| - 1]), ratio, ins[|ins| - 1])
  }

  lemma {:induction false} PpsRunConcat(r: PpsRegs, ratio: Ratio, before: seq<ClockInput>, after: seq<ClockInput>)
    ensures PpsRun(r, ratio, before + after) == PpsRun(PpsRun(r, ratio, before), ratio, after)
    decreases |after|
  {
    hide PpsStep;
    if after == [] {
      assert before + after == before;
    } else {
      var n := |after| - 1;
      assert (before + after)[..|before| + n] == before + after[..n];
      PpsRunConcat(r, ratio, before, after[..n]);
    }
  }

  /** The clock shows these registers one cycle later, while the pulses are enabled. */
  lemma {:induction false} PulsesAreShown(r: ClockRegs, ratio: Ratio, ins: seq<ClockInput>)
    ensures ClockRun(r, ratio, ins).pps == PpsRun(r.pps, ratio, ins)
    ensures ins != [] && ins[|ins| - 1].enabled ==>
              var s := PpsRun(r.pps, ratio, ins[..|ins| - 1]);
              ClockRun(r, ratio, ins).out == Time(s.secNext, s.nsecNext)
  {
    hide PpsStep;
    hide FreeStep;
    if ins != [] {
      PulsesAreShown(r, ratio, ins[..|ins| - 1]);
    }
  }

  predicate Enabled(ins: seq<ClockInput>) {
    forall i :: 0 <= i < |ins| ==> ins[i].enabled
  }

  lemma {:induction false} StaysEnabled(r: PpsRegs, ratio: Ratio, ins: seq<ClockInput>)
    requires r.enabledPrev && Enabled(ins)
    ensures PpsRun(r, ratio, ins).enabledPrev
  {
  }

  // ---- counting seconds ----

  /** A pulse starts with input k, when the line was `prev` before all of them. */
  predicate PulseAt(prev: bool, ins: seq<ClockInput>, k: nat)
    requires k < |ins|
  {
    Used(ins[k]) && !(if k == 0 then prev else Used(ins[k - 1]))
  }

  /** The pulses that start among the inputs. */
  function Pulses(prev: bool, ins: seq<ClockInput>): nat {
    if ins == [] then 0
    else Pulses(prev, ins[..|ins| - 1]) + if PulseAt(prev, ins, |ins| - 1) then 1 else 0
  }

  /** The second that has begun, whether the local clock or the pulse came first. */
  function Seconds(r: PpsRegs): nat {
    (r.secNext - if r.done then 1 else 0) % W48
  }

  lemma {:induction false} LastPulse(r: PpsRegs, ratio: Ratio, ins: seq<ClockInput>)
    ensures PpsRun(r, ratio, ins).ppsPrev == if ins == [] then r.ppsPrev else Used(ins[|ins| - 1])
  {
  }

  lemma {:induction false} EdgeAtPulse(r: PpsRegs, ratio: Ratio, ins: seq<ClockInput>)
    requires ins != []
    ensures var n := |ins| - 1;
      Edge(PpsRun(r, ratio, ins[..n]), ins[n]) <==> PulseAt(r.ppsPrev, ins, n)
  {
    hide PpsStep;
    LastPulse(r, ratio, ins[..|ins| - 1]);
  }

  /** While the pulses are enabled the seconds grow by exactly one with every pulse and
    never otherwise, however early or late the local clock comes to its second. */
  lemma {:induction false} SecondsCountPulses(r: PpsRegs, ratio: Ratio, ins: seq<ClockInput>)
    requires r.enabledPrev && Enabled(ins)
    ensures Seconds(PpsRun(r, ratio, ins)) == (Seconds(r) + Pulses(r.ppsPrev, ins)) % W48
  {
    hide PpsStep;
    hide Seconds;
    hide Edge;
    hide PulseAt;
    if ins != [] {
      var n := |ins| - 1;
      var s, before := PpsRun(r, ratio, ins[..n]), Pulses(r.ppsPrev, ins[..n]);
      SecondsCountPulses(r, ratio, ins[..n]);
      StaysEnabled(r, ratio, ins[..n]);
      EdgeAtPulse(r, ratio, ins);
      OnePulse(s, ratio, ins[n]);
      ModuloOfSum(Seconds(r) + before, if Edge(s, ins[n]) then 1 else 0, W48);
    } else {
      SecondsBelow(r);
    }
  }

  lemma OnePulse(r: PpsRegs, ratio: Ratio, i: ClockInput)
    requires r.enabledPrev
    ensures Seconds(PpsStep(r, ratio, i)) == (Seconds(r) + if Edge(r, i) then 1 else 0) % W48
  {
    var s := PpsStep(r, ratio, i);
    assert s.secNext == r.secNext || s.secNext == (r.secNext + 1) % W48;
    SecondBefore(r.secNext);
  }

  lemma SecondBefore(s: Sec48)
    ensures ((s + 1) % W48 - 1) % W48 == s == s % W48 && ((s - 1) % W48 + 1) % W48 == s
  {
  }

  lemma {:induction false} AfterLastPulse(r: PpsRegs, ratio: Ratio, ins: seq<ClockInput>)
    requires r.enabledPrev && Enabled(ins) && ins != [] && PulseAt(r.ppsPrev, ins, |ins| - 1)
    ensures var s := PpsRun(r, ratio, ins);
      s.secNext == Seconds(s)
  {
    hide PpsStep;
    hide Seconds;
    hide PulseAt;
    hide Edge;
    var n := |ins| - 1;
    StaysEnabled(r, ratio, ins[..n]);
    EdgeAtPulse(r, ratio, ins);
    EdgeStep(PpsRun(r, ratio, ins[..n]), ratio, ins[n]);
    SecondsOfRunning(PpsRun(r, ratio, ins));
  }

  /** Enabling the pulses loads the configured second, but leaves a rollover that the local
    clock has already counted. After a pulse the clock shows the configured second plus
    the pulses since exactly when there was none; otherwise it is one second late. */
  lemma {:induction false} SecondsAfterEnabling(r: PpsRegs, ratio: Ratio, i: ClockInput, ins: seq<ClockInput>)
    requires Enabling(r, i) && Enabled(ins) && ins != [] && PulseAt(Used(i), ins, |ins| - 1)
    ensures var s := PpsRun(r, ratio, [i] + ins);
      && s.secNext == (i.secConfig + Pulses(Used(i), ins) - if r.done then 1 else 0) % W48
      && (s.secNext == (i.secConfig + Pulses(Used(i), ins)) % W48 <==> !r.done)
  {
    hide PpsStep;
    hide Seconds;
    hide PulseAt;
    hide Pulses;
    hide Edge;
    var e := PpsStep(r, ratio, i);
    OneStep(r, ratio, i);
    PpsRunConcat(r, ratio, [i], ins);
    EnablingStep(r, ratio, i);
    SecondsCountPulses(e, ratio, ins);
    AfterLastPulse(e, ratio, ins);
    OneSecondLate(i.secConfig, Pulses(Used(i), ins));
    if !r.done {
      ModuloOfSum(i.secConfig, Pulses(Used(i), ins), W48);
    }
  }

  lemma OneSecondLate(c: nat, p: nat)
    ensures ((c - 1) % W48 + p) % W48 == (c + p - 1) % W48 != (c + p) % W48
  {
    if c > 0 {
      ModuloOfSum(c - 1, p, W48);
    }
  }

  lemma {:induction false} OneStep(r: PpsRegs, ratio: Ratio, i: ClockInput)
    ensures PpsRun(r, ratio, [i]) == PpsStep(r, ratio, i)
  {
    hide PpsStep;
    assert [i][..0] == [];
  }

  lemma EnablingStep(r: PpsRegs, ratio: Ratio, i: ClockInput)
    requires Enabling(r, i)
    ensures var e := PpsStep(r, ratio, i);
      e.enabledPrev && e.ppsPrev == Used(i) && Seconds(e) == (i.secConfig - if r.done then 1 else 0) % W48
  {
  }

  lemma EdgeStep(r: PpsRegs, ratio: Ratio, i: ClockInput)
    requires r.enabledPrev && Edge(r, i)
    ensures var e := PpsStep(r, ratio, i);
      && !e.done && e.secNext == Seconds(e) && e.nsecNext == ratio && e.total == ratio && e.ppsPrev
      && e.enabledPrev == i.enabled && e.secInc == AtRollover(r, ratio) && e.lastPeriod == r.total
  {
  }

  /** The cycle after a pulse. */
  lemma StepAfterPulse(r: PpsRegs, ratio: Ratio, i: ClockInput)
    requires r.enabledPrev && !Edge(r, i) && i.enabled && !r.done && r.nsecNext == ratio && r.sum < W32
    ensures var e := PpsStep(r, ratio, i);
      && e.enabledPrev
      && (if r.secInc then e.done && e.secNext == (r.secNext + 1) % W48 && e.nsecNext == 0
          else e.secNext == r.secNext && e.nsecNext >= ratio)
  {
  }

  // ---- the rollover ----

  /** What holds of the registers from a reset on. */
  predicate PpsInv(r: PpsRegs, ratio: Ratio) {
    && (r.done ==> r.nsecNext == 0)
    && r.nsecNext < BILLION - ratio + 30
    && (!r.done && !r.secInc ==> r.nsecNext < BILLION - ratio + 15)
    && r.sum < W32 && r.total < W30
  }

  /** `nsec_next_pps` never comes near the end of its 30 bits. */
  lemma {:induction false} NanosecondsAreBounded(r: PpsRegs, ratio: Ratio, ins: seq<ClockInput>)
    requires PpsInv(r, ratio)
    ensures PpsInv(PpsRun(r, ratio, ins), ratio)
  {
    if ins != [] {
      NanosecondsAreBounded(r, ratio, ins[..|ins| - 1]);
    }
  }

  lemma ResetEstablishesPpsInv(r: ClockRegs, ratio: Ratio, i: ClockInput)
    requires r.pps.total < W30
    ensures PpsInv(ClockStep(r, ratio, true, i).pps, ratio)
  {
  }

  predicate NoPulse(ins: seq<ClockInput>) {
    forall i :: 0 < i < |ins| ==> Used(ins[i]) ==> Used(ins[i - 1])
  }

  /** No pulse starts among the inputs, when the line was `prev` before them. */
  predicate Quiet(prev: bool, ins: seq<ClockInput>) {
    NoPulse(ins) && (ins != [] && Used(ins[0]) ==> prev)
  }

  lemma QuietFront(prev: bool, ins: seq<ClockInput>)
    requires Quiet(prev, ins) && ins != []
    ensures Quiet(prev, ins[..|ins| - 1]) && !PulseAt(prev, ins, |ins| - 1)
  {
  }

  /** Once the local clock has counted the second by itself, it stands still until the
    next pulse. */
  lemma {:induction false} WaitsForPulse(r: PpsRegs, ratio: Ratio, ins: seq<ClockInput>)
    requires r.enabledPrev && Enabled(ins) && r.done && Quiet(r.ppsPrev, ins)
    ensures var s := PpsRun(r, ratio, ins);
      s.done && s.secNext == r.secNext && s.nsecNext == r.nsecNext
  {
    if ins != [] {
      var n := |ins| - 1;
      QuietFront(r.ppsPrev, ins);
      WaitsForPulse(r, ratio, ins[..n]);
      StaysEnabled(r, ratio, ins[..n]);
      EdgeAtPulse(r, ratio, ins);
    }
  }

  /** The clock right after a pulse that came at a rollover. */
  predicate Doubled(r: PpsRegs, ratio: Ratio) {
    && r.enabledPrev && r.ppsPrev && !r.done && r.secInc
    && r.nsecNext == ratio && PpsInv(r, ratio)
  }

  /** It goes a second ahead and stands still. */
  lemma {:induction false} DoubledStands(r: PpsRegs, ratio: Ratio, waits: seq<ClockInput>)
    requires Doubled(r, ratio) && Enabled(waits) && NoPulse(waits) && waits != []
    ensures var s := PpsRun(r, ratio, waits);
      s.done && s.nsecNext == 0 && s.secNext == (r.secNext + 1) % W48
  {
    hide PpsStep;
    var rest := waits[1..];
    var b := PpsStep(r, ratio, waits[0]);
    StepAfterPulse(r, ratio, waits[0]);
    LastPulse(r, ratio, [waits[0]]);
    OneStep(r, ratio, waits[0]);
    QuietLine(rest, waits);
    assert [waits[0]] + rest == waits;
    PpsRunConcat(r, ratio, [waits[0]], rest);
    assert rest != [] ==> rest[0] == waits[1];
    WaitsForPulse(b, ratio, rest);
  }

  lemma StaysBounded(r: PpsRegs, ratio: Ratio, i: ClockInput)
    requires PpsInv(r, ratio)
    ensures PpsInv(PpsStep(r, ratio, i), ratio)
  {
    OneStep(r, ratio, i);
    NanosecondsAreBounded(r, ratio, [i]);
    hide PpsStep;
  }

  /** The first cycle after the pulse, and all of them. */
  lemma {:induction false} RunsFromPulse(r: PpsRegs, ratio: Ratio, pulse: ClockInput, ins: seq<ClockInput>)
    requires ins != []
    ensures var a := PpsStep(r, ratio, pulse);
      && PpsRun(r, ratio, [pulse] + ins[..1]) == PpsStep(a, ratio, ins[0])
      && PpsRun(r, ratio, [pulse] + ins) == PpsRun(a, ratio, ins)
  {
    hide PpsStep;
    var a := PpsStep(r, ratio, pulse);
    assert ins[..1] == [ins[0]];
    OneStep(r, ratio, pulse);
    OneStep(a, ratio, ins[0]);
    PpsRunConcat(r, ratio, [pulse], ins[..1]);
    PpsRunConcat(r, ratio, [pulse], ins);
  }

  lemma {:induction false} SecondsAfterPulse(a: PpsRegs, ratio: Ratio, ins: seq<ClockInput>)
    requires a.enabledPrev && a.ppsPrev && Enabled(ins) && NoPulse(ins)
    ensures Seconds(PpsRun(a, ratio, ins)) == Seconds(a)
  {
    SecondsCountPulses(a, ratio, ins);
    PulsesOfQuietLine(a.ppsPrev, ins);
    SecondsBelow(a);
    hide Seconds;
    hide Pulses;
  }

  /** When a pulse comes at the moment the local clock reaches its rollover, the rollover
    is counted a second time, right after the pulse: then the clock is one second ahead
    and stands at nanosecond 0 until the next pulse. A cycle after the pulse it is right
    exactly when the local clock had not come to its rollover. */
  lemma {:induction false} PulseAtRollover(r: PpsRegs, ratio: Ratio, pulse: ClockInput, ins: seq<ClockInput>)
    requires r.enabledPrev && pulse.enabled && Enabled(ins) && Edge(r, pulse) && ins != [] && NoPulse([pulse] + ins)
    requires PpsInv(r, ratio)
    ensures var next, s := PpsRun(r, ratio, [pulse] + ins[..1]), PpsRun(r, ratio, [pulse] + ins);
      && Seconds(s) == (Seconds(r) + 1) % W48
      && (next.secNext == Seconds(s) && next.nsecNext >= ratio <==> !AtRollover(r, ratio))
      && (AtRollover(r, ratio) ==> s.done && s.secNext == (Seconds(s) + 1) % W48 && s.nsecNext == 0)
  {
    hide PpsStep;
    hide PpsInv;
    hide Seconds;
    hide NoPulse;
    hide AtRollover;
    var a := PpsStep(r, ratio, pulse);
    RunsFromPulse(r, ratio, pulse, ins);
    QuietLine(ins, [pulse] + ins);
    QuietFirst(pulse, ins);
    EdgeStep(r, ratio, pulse);
    OnePulse(r, ratio, pulse);
    StaysBounded(r, ratio, pulse);
    SumFits(a, ratio);
    StepAfterPulse(a, ratio, ins[0]);
    SecondsAfterPulse(a, ratio, ins);
    SecondsOfRunning(a);
    if AtRollover(r, ratio) {
      DoubledStands(a, ratio, ins);
    }
  }

  lemma QuietFirst(pulse: ClockInput, ins: seq<ClockInput>)
    requires ins != [] && NoPulse([pulse] + ins)
    ensures Used(ins[0]) ==> Used(pulse)
  {
    var all := [pulse] + ins;
    assert all[1] == ins[0] && all[0] == pulse;
  }

  lemma SumFits(r: PpsRegs, ratio: Ratio)
    requires PpsInv(r, ratio)
    ensures r.sum < W32
  {
  }

  lemma SecondsOfRunning(r: PpsRegs)
    requires !r.done
    ensures Seconds(r) == r.secNext
  {
  }

  lemma SecondsBelow(r: PpsRegs)
    ensures Seconds(r) % W48 == Seconds(r)
  {
  }

  lemma QuietLine(ins: seq<ClockInput>, whole: seq<ClockInput>)
    requires |whole| == |ins| + 1 && whole[1..] == ins && NoPulse(whole)
    ensures NoPulse(ins)
  {
    forall i | 0 < i < |ins|
      ensures Used(ins[i]) ==> Used(ins[i - 1])
    {
      assert ins[i] == whole[i + 1] && ins[i - 1] == whole[i];
    }
  }

  lemma {:induction false} PulsesOfQuietLine(prev: bool, ins: seq<ClockInput>)
    requires Quiet(prev, ins)
    ensures Pulses(prev, ins) == 0
  {
    hide Quiet;
    hide PulseAt;
    if ins != [] {
      QuietFront(prev, ins);
      PulsesOfQuietLine(prev, ins[..|ins| - 1]);
    }
  }

  // ---- the fractional accumulator ----

  predicate Accumulating(r: PpsRegs, i: ClockInput) {
    !Enabling(r, i) && !Edge(r, i) && !r.done && !r.secInc
  }

  /** Nanoseconds in units of 2 to the power -28, with what is still to be carried. */
  function Fine(r: PpsRegs): nat {
    r.nsecNext * W28 + r.sum
  }

  lemma StepInParts(r: PpsRegs, ratio: Ratio, i: ClockInput)
    requires PpsInv(r, ratio) && Accumulating(r, i)
    ensures var s := PpsStep(r, ratio, i);
      s.nsecNext == r.nsecNext + r.sum / W28 && s.sum == (r.sum % W28 + i.delta) % W32
  {
  }

  lemma SumInParts(n: nat, s: nat, d: nat)
    requires d < W32
    ensures (n + s / W28) * W28 + (s % W28 + d) % W32 == n * W28 + s + d <==> s % W28 + d < W32
  {
    assert s == s / W28 * W28 + s % W28;
  }

  /** A step adds the delta exactly, unless the accumulator overflows its 32 bits. */
  lemma AccumulatorStep(r: PpsRegs, ratio: Ratio, i: ClockInput)
    requires PpsInv(r, ratio) && Accumulating(r, i) && i.delta < W32
    ensures Fine(PpsStep(r, ratio, i)) == Fine(r) + i.delta <==> r.sum % W28 + i.delta < W32
  {
    hide PpsStep;
    StepInParts(r, ratio, i);
    SumInParts(r.nsecNext, r.sum, i.delta);
  }

  ghost predicate Uninterrupted(r: PpsRegs, ratio: Ratio, ins: seq<ClockInput>, delta: nat) {
    ins != [] ==>
      var n := |ins| - 1;
      && Uninterrupted(r, ratio, ins[..n], delta)
      && Accumulating(PpsRun(r, ratio, ins[..n]), ins[n]) && ins[n].delta == delta
  }

  /** The accumulator does not drift: k uninterrupted steps add k times the delta. */
  lemma {:induction false} AccumulatorDoesNotDrift(r: PpsRegs, ratio: Ratio, ins: seq<ClockInput>, delta: nat)
    requires PpsInv(r, ratio) && delta <= W32 - W28 && Uninterrupted(r, ratio, ins, delta)
    ensures Fine(PpsRun(r, ratio, ins)) == Fine(r) + |ins| * delta
  {
    if ins != [] {
      var n := |ins| - 1;
      AccumulatorDoesNotDrift(r, ratio, ins[..n], delta);
      NanosecondsAreBounded(r, ratio, ins[..n]);
      AccumulatorStep(PpsRun(r, ratio, ins[..n]), ratio, ins[n]);
      assert |ins| * delta == n * delta + delta;
    }
  }

  /** The nanoseconds after k steps are those of the start and the k - 1 deltas before,
    rounded down. */
  lemma {:induction false} NanosecondsAreFloor(r: PpsRegs, ratio: Ratio, ins: seq<ClockInput>, delta: nat)
    requires PpsInv(r, ratio) && delta <= W32 - W28 && Uninterrupted(r, ratio, ins, delta) && ins != []
    ensures PpsRun(r, ratio, ins).nsecNext == (Fine(r) + (|ins| - 1) * delta) / W28
  {
    hide PpsStep;
    var n := |ins| - 1;
    var s := PpsRun(r, ratio, ins[..n]);
    AccumulatorDoesNotDrift(r, ratio, ins[..n], delta);
    NanosecondsAreBounded(r, ratio, ins[..n]);
    StepInParts(s, ratio, ins[n]);
    WholePart(s.nsecNext, s.sum, Fine(r) + n * delta);
  }

  lemma WholePart(a: int, b: nat, x: nat)
    requires a * W28 + b == x
    ensures a + b / W28 == x / W28
  {
  }

  /** With a larger delta nanoseconds get lost: two steps from zero suffice. */
  lemma {:induction false} LargeDeltaOverflows(r: PpsRegs, ratio: Ratio, i: ClockInput)
    requires PpsInv(r, ratio) && r.nsecNext == 0 && r.sum == 0 && Accumulating(r, i) && i.delta == W32 - 1
    ensures Fine(PpsRun(r, ratio, [i, i])) == 2 * i.delta - 16 * W28
  {
    var a := PpsStep(r, ratio, i);
    assert a.nsecNext == 0 && a.sum == i.delta && Accumulating(a, i);
    var b := PpsStep(a, ratio, i);
    assert b.nsecNext == 15 && b.sum == W28 - 2;
    hide PpsStep;
    OneStep(r, ratio, i);
    OneStep(a, ratio, i);
    PpsRunConcat(r, ratio, [i], [i]);
    assert [i] + [i] == [i, i];
  }

  /** At a rollover that no pulse has forestalled the clock takes one more step before it
    goes to zero, and shows a nanosecond count of a billion or more for a cycle exactly
    when that step reaches it: always, when the step is at least the nominal one. */
  lemma RolloverShowsBillion(r: ClockRegs, ratio: Ratio, i: ClockInput, j: ClockInput)
    requires PpsInv(r.pps, ratio) && Accumulating(r.pps, i) && AtRollover(r.pps, ratio) && j.enabled
    ensures var n := ClockStep(ClockStep(r, ratio, false, i), ratio, false, j).out.nsec;
      && (n >= BILLION <==> r.pps.nsecNext + r.pps.sum / W28 >= BILLION)
      && (r.pps.sum / W28 >= ratio ==> n >= BILLION)
  {
    StepInParts(r.pps, ratio, i);
  }

  // ---- the measured period ----

  lemma OneMoreCycle(n: nat, ratio: Ratio)
    ensures (n * ratio % W30 + ratio) % W30 == (n + 1) * ratio % W30
  {
    assert (n + 1) * ratio == n * ratio + ratio;
    ModuloOfSum(n * ratio, ratio, W30);
  }

  lemma TotalStep(r: PpsRegs, ratio: Ratio, i: ClockInput)
    requires !Enabling(r, i) && !Edge(r, i)
    ensures PpsStep(r, ratio, i).total == (r.total + ratio) % W30
  {
  }

  lemma {:induction false} TotalCountsCycles(r: PpsRegs, ratio: Ratio, ins: seq<ClockInput>)
    requires r.enabledPrev && Enabled(ins) && Quiet(r.ppsPrev, ins) && r.total == ratio
    ensures PpsRun(r, ratio, ins).total == (|ins| + 1) * ratio % W30
  {
    hide PpsStep;
    hide Quiet;
    hide PulseAt;
    hide Edge;
    if ins != [] {
      var n := |ins| - 1;
      QuietFront(r.ppsPrev, ins);
      TotalCountsCycles(r, ratio, ins[..n]);
      StaysEnabled(r, ratio, ins[..n]);
      EdgeAtPulse(r, ratio, ins);
      TotalStep(PpsRun(r, ratio, ins[..n]), ratio, ins[n]);
      OneMoreCycle(|ins|, ratio);
    }
  }

  /** At a pulse, `last_period_pps` becomes the time since the pulse before, when that is
    less than 2 to the power 30 nanoseconds. */
  lemma {:induction false} PeriodIsMeasured(r: PpsRegs, ratio: Ratio, pulse: ClockInput, ins: seq<ClockInput>,
                                            next: ClockInput)
    requires r.enabledPrev && pulse.enabled && Enabled(ins) && next.enabled && Edge(r, pulse) && NoPulse([pulse] + ins)
    requires Edge(PpsRun(r, ratio, [pulse] + ins), next)
    ensures PpsRun(r, ratio, [pulse] + ins + [next]).lastPeriod == (|ins| + 1) * ratio % W30
  {
    hide PpsStep;
    var a := PpsStep(r, ratio, pulse);
    OneStep(r, ratio, pulse);
    EdgeStep(r, ratio, pulse);
    PpsRunConcat(r, ratio, [pulse], ins);
    QuietLine(ins, [pulse] + ins);
    assert ins != [] ==> ([pulse] + ins)[1] == ins[0];
    TotalCountsCycles(a, ratio, ins);
    StaysEnabled(a, ratio, ins);
    assert ([pulse] + ins + [next])[..|ins| + 1] == [pulse] + ins;
    EdgeStep(PpsRun(a, ratio, ins), ratio, next);
  }
}
