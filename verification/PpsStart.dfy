/** Which line the clock follows, and what it shows from its reset and from the enabling of the
  pulses on. */
module PpsStart {
  import opened Arithmetic
  import opened RtClock
  import opened PpsClock

  // ---- the selected line ----

  /** The same inputs but for the line that is not selected. */
  ghost predicate SameSelected(ins: seq<ClockInput>, others: seq<ClockInput>) {
    |ins| == |others| && forall k :: 0 <= k < |ins| ==>
      ins[k] == (if ins[k].select then others[k].(pps := ins[k].pps) else others[k].(pps2 := ins[k].pps2))
  }

  lemma OtherLineInStep(r: PpsRegs, ratio: Ratio, i: ClockInput, j: ClockInput)
    requires i == if i.select then j.(pps := i.pps) else j.(pps2 := i.pps2)
    ensures PpsStep(r, ratio, i) == PpsStep(r, ratio, j)
  {
    assert Used(i) == Used(j);
    hide Used;
  }

  /** The line that is not selected has no effect. */
  lemma {:induction false} OtherLineIsIgnored(r: ClockRegs, ratio: Ratio, ins: seq<ClockInput>, others: seq<ClockInput>)
    requires SameSelected(ins, others)
    ensures ClockRun(r, ratio, ins) == ClockRun(r, ratio, others)
  {
    hide PpsStep;
    hide FreeStep;
    if ins != [] {
      var n := |ins| - 1;
      OtherLineIsIgnored(r, ratio, ins[..n], others[..n]);
      OtherLineInStep(ClockRun(r, ratio, ins[..n]).pps, ratio, ins[n], others[n]);
    }
  }

  /** How often a line rises that was at `prev` before. */
  function RisingEdges(prev: bool, line: seq<bool>): nat {
    if line == [] then 0
    else
      var n := |line| - 1;
      RisingEdges(prev, line[..n]) + if line[n] && !(if n == 0 then prev else line[n - 1]) then 1 else 0
  }

  lemma {:induction false} PulsesAreEdges(prev: bool, ins: seq<ClockInput>, select: bool, line: seq<bool>)
    requires |line| == |ins| && forall k :: 0 <= k < |ins| ==> ins[k].select == select
    requires forall k :: 0 <= k < |ins| ==> line[k] == if select then ins[k].pps2 else ins[k].pps
    ensures Pulses(prev, ins) == RisingEdges(prev, line)
  {
    if ins != [] {
      var n := |ins| - 1;
      PulsesAreEdges(prev, ins[..n], select, line[..n]);
    }
  }

  /** While the pulses are enabled the seconds grow by one with every rising edge of `pps`, if
    the select bit is 0, and of `pps2`, if it is 1, and never otherwise. */
  lemma {:induction false} SecondsCountEdges(r: PpsRegs, ratio: Ratio, ins: seq<ClockInput>, select: bool,
                                             line: seq<bool>)
    requires r.enabledPrev && Enabled(ins)
    requires |line| == |ins| && forall k :: 0 <= k < |ins| ==> ins[k].select == select
    requires forall k :: 0 <= k < |ins| ==> line[k] == if select then ins[k].pps2 else ins[k].pps
    ensures Seconds(PpsRun(r, ratio, ins)) == (Seconds(r) + RisingEdges(r.ppsPrev, line)) % W48
  {
    SecondsCountPulses(r, ratio, ins);
    PulsesAreEdges(r.ppsPrev, ins, select, line);
    hide Seconds;
    hide PpsRun;
  }

  // ---- from a reset on ----

  /** After a reset with the pulses enabled before, the clock shows at a pulse the number of
    pulses since. */
  lemma {:induction false} SecondsSinceReset(r: ClockRegs, ratio: Ratio, i: ClockInput, ins: seq<ClockInput>)
    requires r.pps.enabledPrev && Enabled(ins) && ins != [] && PulseAt(r.pps.ppsPrev, ins, |ins| - 1)
    ensures var s := PpsRun(ClockStep(r, ratio, true, i).pps, ratio, ins);
      s.secNext == Pulses(r.pps.ppsPrev, ins) % W48 && s.nsecNext == ratio
  {
    hide PpsStep;
    hide PulseAt;
    hide Edge;
    var e, n := ClockStep(r, ratio, true, i).pps, |ins| - 1;
    assert e.secNext == 0 && !e.done && e.enabledPrev && e.ppsPrev == r.pps.ppsPrev;
    SecondsCountPulses(e, ratio, ins);
    AfterLastPulse(e, ratio, ins);
    StaysEnabled(e, ratio, ins[..n]);
    EdgeAtPulse(e, ratio, ins);
    EdgeStep(PpsRun(e, ratio, ins[..n]), ratio, ins[n]);
  }

  // ---- from the enabling of the pulses on ----

  lemma {:induction false} SecondStays(r: PpsRegs, ratio: Ratio, ins: seq<ClockInput>, delta: nat)
    requires Uninterrupted(r, ratio, ins, delta)
    ensures PpsRun(r, ratio, ins).secNext == r.secNext
  {
    if ins != [] {
      SecondStays(r, ratio, ins[..|ins| - 1], delta);
    }
  }

  /** When the pulses are enabled, the clock begins with the configured second, at nanosecond 0:
    the deltas since are what it shows, until the first pulse or its rollover. */
  lemma {:induction false} TimeAfterEnabling(r: PpsRegs, ratio: Ratio, i: ClockInput, ins: seq<ClockInput>, delta: nat)
    requires PpsInv(r, ratio) && Enabling(r, i) && ins != [] && delta <= W32 - W28
    requires Uninterrupted(PpsStep(r, ratio, i), ratio, ins, delta)
    ensures var s := PpsRun(r, ratio, [i] + ins);
      s.secNext == i.secConfig % W48 && s.nsecNext == (|ins| - 1) * delta / W28
  {
    var e := PpsStep(r, ratio, i);
    assert e.secNext == i.secConfig % W48 && Fine(e) == 0;
    StaysBounded(r, ratio, i);
    hide PpsStep;
    hide PpsInv;
    hide Uninterrupted;
    OneStep(r, ratio, i);
    PpsRunConcat(r, ratio, [i], ins);
    SecondStays(e, ratio, ins, delta);
    NanosecondsAreFloor(e, ratio, ins, delta);
  }
}
