/** The clock from one pulse to the next, with the delta held. */
module PpsLoop {
  import opened Arithmetic
  import opened RtClock
  import opened PpsClock
  import opened PpsCorrection

  /** The clock right after a pulse that did not come at a rollover. */
  predicate AfterPulse(r: PpsRegs, ratio: Ratio) {
    && r.enabledPrev && r.ppsPrev && !r.done && !r.secInc
    && r.nsecNext == ratio && PpsInv(r, ratio)
  }

  /** Inputs without a pulse, after a cycle with the line at 1. */
  ghost predicate Waits(ins: seq<ClockInput>) {
    Enabled(ins) && NoPulse(ins)
  }

  ghost predicate WithDelta(ins: seq<ClockInput>, delta: nat) {
    forall i :: 0 <= i < |ins| ==> ins[i].delta == delta
  }

  /** The local clock has come to its rollover k cycles after a pulse, when `carry` was left
    in the accumulator. */
  predicate Rolls(ratio: Ratio, carry: nat, delta: nat, k: int) {
    k >= 1 && carry + (k - 1) * delta >= (BILLION - 2 * ratio) * W28
  }

  lemma RollsStays(ratio: Ratio, carry: nat, delta: nat, k: int)
    requires Rolls(ratio, carry, delta, k)
    ensures Rolls(ratio, carry, delta, k + 1)
  {
    assert k * delta == (k - 1) * delta + delta;
  }

  /** What the registers are k cycles after a pulse: still counting, about to roll over, or
    waiting for the next pulse. */
  ghost predicate InSecond(r: PpsRegs, ratio: Ratio, carry: nat, delta: nat, k: nat) {
    && r.enabledPrev && PpsInv(r, ratio)
    && if !Rolls(ratio, carry, delta, k - 1) then
         && !r.done && !r.secInc && Fine(r) == ratio * W28 + carry + k * delta
         && r.nsecNext == if k == 0 then ratio else ratio + (carry + (k - 1) * delta) / W28
       else if !Rolls(ratio, carry, delta, k - 2) then !r.done && r.secInc && AtRollover(r, ratio)
       else r.done
  }

  lemma RolloverInSecond(r: PpsRegs, ratio: Ratio, carry: nat, delta: nat, k: nat)
    requires ratio < 500_000_000 && InSecond(r, ratio, carry, delta, k)
    ensures AtRollover(r, ratio) <==> Rolls(ratio, carry, delta, k) && !Rolls(ratio, carry, delta, k - 2)
  {
    if Rolls(ratio, carry, delta, k - 2) {
      RollsStays(ratio, carry, delta, k - 2);
    } else if Rolls(ratio, carry, delta, k - 1) {
      RollsStays(ratio, carry, delta, k - 1);
    } else if k > 0 {
      WholeNanoseconds(carry + (k - 1) * delta, BILLION - 2 * ratio);
    }
  }

  lemma WholeNanoseconds(x: nat, n: nat)
    ensures x / W28 >= n <==> x >= n * W28
  {
  }

  /** One delta more. */
  lemma OneDelta(r: PpsRegs, ratio: Ratio, x: nat, i: ClockInput)
    requires PpsInv(r, ratio) && r.enabledPrev && !r.done && !r.secInc && Fine(r) == ratio * W28 + x
    requires i.enabled && !Edge(r, i) && i.delta <= W32 - W28
    ensures var t := PpsStep(r, ratio, i);
      && t.enabledPrev && !t.done && t.secInc == AtRollover(r, ratio)
      && Fine(t) == ratio * W28 + x + i.delta && t.nsecNext == ratio + x / W28
  {
    AccumulatorStep(r, ratio, i);
    StepInParts(r, ratio, i);
    WholePart(r.nsecNext - ratio, r.sum, x);
    hide Fine;
  }

  lemma CountingStep(r: PpsRegs, ratio: Ratio, carry: nat, delta: nat, k: nat, i: ClockInput)
    requires ratio < 500_000_000 && InSecond(r, ratio, carry, delta, k) && !Rolls(ratio, carry, delta, k - 1)
    requires i.enabled && !Edge(r, i) && i.delta == delta <= W32 - W28
    ensures InSecond(PpsStep(r, ratio, i), ratio, carry, delta, k + 1)
  {
    hide PpsStep;
    hide PpsInv;
    hide Fine;
    RolloverInSecond(r, ratio, carry, delta, k);
    OneDelta(r, ratio, carry + k * delta, i);
    StaysBounded(r, ratio, i);
    assert (k + 1) * delta == k * delta + delta;
    if Rolls(ratio, carry, delta, k - 2) {
      RollsStays(ratio, carry, delta, k - 2);
    } else if Rolls(ratio, carry, delta, k) {
      WholeNanoseconds(carry + k * delta, BILLION - 2 * ratio);
    }
  }

  lemma RollingStep(r: PpsRegs, ratio: Ratio, carry: nat, delta: nat, k: nat, i: ClockInput)
    requires InSecond(r, ratio, carry, delta, k) && Rolls(ratio, carry, delta, k - 1)
    requires i.enabled && !Edge(r, i)
    ensures InSecond(PpsStep(r, ratio, i), ratio, carry, delta, k + 1)
  {
    StaysBounded(r, ratio, i);
    RollsStays(ratio, carry, delta, k - 1);
  }

  /** So it is in every cycle up to the next pulse. */
  lemma {:induction false} CyclesAfterPulse(r: PpsRegs, ratio: Ratio, ins: seq<ClockInput>, delta: nat)
    requires AfterPulse(r, ratio) && ratio < 500_000_000 && delta <= W32 - W28
    requires Waits(ins) && WithDelta(ins, delta)
    ensures InSecond(PpsRun(r, ratio, ins), ratio, r.sum, delta, |ins|)
  {
    hide InSecond;
    hide PpsStep;
    hide Rolls;
    if ins == [] {
      JustAfterPulse(r, ratio, delta);
    } else {
      var n := |ins| - 1;
      CyclesAfterPulse(r, ratio, ins[..n], delta);
      LastPulse(r, ratio, ins[..n]);
      var s := PpsRun(r, ratio, ins[..n]);
      if Rolls(ratio, r.sum, delta, n - 1) {
        RollingStep(s, ratio, r.sum, delta, n, ins[n]);
      } else {
        CountingStep(s, ratio, r.sum, delta, n, ins[n]);
      }
    }
  }

  lemma JustAfterPulse(r: PpsRegs, ratio: Ratio, delta: nat)
    requires AfterPulse(r, ratio)
    ensures InSecond(r, ratio, r.sum, delta, 0)
  {
  }

  /** n cycles from pulse to pulse, and the next pulse comes at the rollover of the local clock. */
  predicate Collides(ratio: Ratio, carry: nat, delta: nat, n: nat) {
    Rolls(ratio, carry, delta, n - 1) && !Rolls(ratio, carry, delta, n - 3)
  }

  /** A cycle after the next pulse the clock is right if and only if the local clock, with the
    carry and the delta that it had at the pulse before, is not at its rollover: when it
    still has to come there, or has come there three cycles before. Otherwise it is one
    second ahead, and stands at nanosecond 0 until the pulse after. */
  lemma {:induction false} RightAfterNextPulse(r: PpsRegs, ratio: Ratio, ins: seq<ClockInput>, delta: nat,
                                               pulse: ClockInput, rest: seq<ClockInput>)
    requires AfterPulse(r, ratio) && ratio < 500_000_000 && delta <= W32 - W28
    requires Waits(ins) && WithDelta(ins, delta)
    requires pulse.enabled && Edge(PpsRun(r, ratio, ins), pulse) && rest != [] && Enabled(rest)
    requires NoPulse([pulse] + rest)
    ensures
      var next, s := PpsRun(r, ratio, ins + ([pulse] + rest[..1])), PpsRun(r, ratio, ins + ([pulse] + rest));
      && (next.secNext == Seconds(s) && next.nsecNext >= ratio <==> !Collides(ratio, r.sum, delta, |ins| + 1))
      && (Collides(ratio, r.sum, delta, |ins| + 1) ==>
            s.done && s.secNext == (Seconds(s) + 1) % W48 && s.nsecNext == 0)
  {
    hide PpsStep;
    hide Seconds;
    hide Rolls;
    hide NoPulse;
    hide PpsInv;
    var e := PpsRun(r, ratio, ins);
    CyclesAfterPulse(r, ratio, ins, delta);
    StaysEnabled(r, ratio, ins);
    NanosecondsAreBounded(r, ratio, ins);
    RolloverInSecond(e, ratio, r.sum, delta, |ins|);
    PulseAtRollover(e, ratio, pulse, rest);
    PpsRunConcat(r, ratio, ins, [pulse] + rest[..1]);
    PpsRunConcat(r, ratio, ins, [pulse] + rest);
  }

  // ---- the corrected clock ----

  /** The delta of the script, for n cycles of 8 ns between two pulses. */
  function Delta(n: nat): int {
    CorrectedDelta(8 * n)
  }

  /** With pulses exactly a second apart the correction is none, and every pulse after one that
    was counted right comes at the rollover, whatever the carry. */
  lemma ExactSecondCollides(carry: nat)
    requires carry < W32
    ensures Delta(125_000_000) == NOMINAL && Collides(8, carry, NOMINAL, 125_000_000)
  {
  }

  /** So it is with any period within 60 microseconds of a second, once the delta has been
    added to the accumulator. */
  lemma NearSecondCollides(carry: nat, n: nat)
    requires Abs(BILLION - 8 * n) <= 60_000 && Delta(n) <= carry < Delta(n) + W28
    ensures 0 < Delta(n) <= W32 - W28 && Collides(8, carry, Delta(n), n)
  {
    var d, e := Delta(n), BILLION - 8 * n;
    DeltaIsInRange(8 * n);
    CorrectedCycles(n);
    NearNominal(n);
    Square(e, 60_000);
    hide Abs;
    hide CorrectedDelta;
    assert (n - 2) * d == n * d - 2 * d && (n - 4) * d == n * d - 4 * d;
    NearSecond(n * d, e * e);
  }

  lemma Square(e: int, m: nat)
    requires Abs(e) <= m
    ensures e * e <= m * m
  {
    Multiply(Abs(e), Abs(e), m);
    Multiply(m, Abs(e), m);
    assert e * e == Abs(e) * Abs(e);
  }

  lemma NearNominal(n: nat)
    requires Abs(BILLION - 8 * n) <= 60_000
    ensures Abs(Delta(n) - NOMINAL) <= 130_000
  {
  }

  lemma NearSecond(w: int, square: int)
    requires BILLION * Abs(w - BILLION * W28) <= W28 * (square + 2 * BILLION) && square <= 60_000 * 60_000
    ensures Abs(w - BILLION * W28) <= 6 * W28
  {
  }

  // ---- second after second ----

  /** The inputs up to and including a pulse. */
  datatype Second = Second(waits: seq<ClockInput>, pulse: ClockInput)

  /** n cycles from the pulse before to this one, with the delta held. */
  ghost predicate Regular(t: Second, n: nat, delta: nat) {
    && n >= 2 && |t.waits| == n - 1 && Waits(t.waits) && !Used(t.waits[n - 2])
    && t.pulse.enabled && Used(t.pulse) && WithDelta(t.waits, delta)
  }

  /** Any number of cycles, any delta. */
  ghost predicate Held(t: Second) {
    t.waits != [] && t.waits[0].delta <= W32 - W28 && Regular(t, |t.waits| + 1, t.waits[0].delta)
  }

  function AfterSeconds(r: PpsRegs, ratio: Ratio, ts: seq<Second>): PpsRegs {
    if ts == [] then r
    else
      var t := ts[|ts| - 1];
      PpsStep(PpsRun(AfterSeconds(r, ratio, ts[..|ts| - 1]), ratio, t.waits), ratio, t.pulse)
  }

  /** The delta has been added to the accumulator. */
  predicate Carried(r: PpsRegs, delta: nat) {
    delta <= r.sum < delta + W28
  }

  /** One step with the delta, whatever the carry before. */
  lemma StepCarries(r: PpsRegs, ratio: Ratio, i: ClockInput)
    requires PpsInv(r, ratio) && Accumulating(r, i) && i.delta <= W32 - W28
    ensures Carried(PpsStep(r, ratio, i), i.delta)
  {
    StepInParts(r, ratio, i);
    hide PpsStep;
  }

  lemma CarriedStep(r: PpsRegs, ratio: Ratio, i: ClockInput, delta: nat)
    requires r.enabledPrev && Carried(r, delta) && i.delta == delta <= W32 - W28
    ensures Carried(PpsStep(r, ratio, i), delta)
  {
  }

  lemma {:induction false} StaysCarried(r: PpsRegs, ratio: Ratio, ins: seq<ClockInput>, delta: nat)
    requires r.enabledPrev && Enabled(ins) && WithDelta(ins, delta) && Carried(r, delta) && delta <= W32 - W28
    ensures Carried(PpsRun(r, ratio, ins), delta)
  {
    hide PpsStep;
    hide Carried;
    if ins != [] {
      var n := |ins| - 1;
      StaysCarried(r, ratio, ins[..n], delta);
      StaysEnabled(r, ratio, ins[..n]);
      CarriedStep(PpsRun(r, ratio, ins[..n]), ratio, ins[n], delta);
    }
  }

  lemma CarriedOverPulse(r: PpsRegs, ratio: Ratio, pulse: ClockInput, delta: nat)
    requires r.enabledPrev && Carried(r, delta) && Edge(r, pulse)
    ensures Carried(PpsStep(r, ratio, pulse), delta)
  {
  }

  lemma {:induction false} PulseIsEdge(r: PpsRegs, ratio: Ratio, t: Second, n: nat, delta: nat)
    requires Regular(t, n, delta) && r.enabledPrev && PpsInv(r, ratio)
    ensures var e := PpsRun(r, ratio, t.waits);
      e.enabledPrev && Edge(e, t.pulse) && PpsInv(e, ratio) && PpsInv(PpsStep(e, ratio, t.pulse), ratio)
  {
    hide PpsStep;
    hide PpsInv;
    StaysEnabled(r, ratio, t.waits);
    LastPulse(r, ratio, t.waits);
    NanosecondsAreBounded(r, ratio, t.waits);
    StaysBounded(PpsRun(r, ratio, t.waits), ratio, t.pulse);
  }

  lemma {:induction false} CarriedOverSecond(r: PpsRegs, ratio: Ratio, t: Second, n: nat, delta: nat)
    requires r.enabledPrev && PpsInv(r, ratio) && Carried(r, delta) && Regular(t, n, delta) && delta <= W32 - W28
    ensures Carried(PpsStep(PpsRun(r, ratio, t.waits), ratio, t.pulse), delta)
  {
    hide PpsStep;
    hide PpsInv;
    hide Carried;
    PulseIsEdge(r, ratio, t, n, delta);
    StaysCarried(r, ratio, t.waits, delta);
    CarriedOverPulse(PpsRun(r, ratio, t.waits), ratio, t.pulse, delta);
  }

  /** A pulse after one that was counted once is counted twice if and only if it collides. */
  lemma {:induction false} SecondAfterRight(r: PpsRegs, ratio: Ratio, t: Second, n: nat, delta: nat)
    requires AfterPulse(r, ratio) && Regular(t, n, delta) && ratio < 500_000_000 && delta <= W32 - W28
    ensures var s := PpsStep(PpsRun(r, ratio, t.waits), ratio, t.pulse);
      if Collides(ratio, r.sum, delta, n) then Doubled(s, ratio) else AfterPulse(s, ratio)
  {
    hide PpsStep;
    hide PpsInv;
    hide Rolls;
    var e := PpsRun(r, ratio, t.waits);
    PulseIsEdge(r, ratio, t, n, delta);
    CyclesAfterPulse(r, ratio, t.waits, delta);
    RolloverInSecond(e, ratio, r.sum, delta, n - 1);
    EdgeStep(e, ratio, t.pulse);
  }

  /** A pulse after one that was counted twice is counted once. */
  lemma {:induction false} SecondAfterDoubled(r: PpsRegs, ratio: Ratio, t: Second, n: nat, delta: nat)
    requires Doubled(r, ratio) && Regular(t, n, delta) && ratio < 500_000_000
    ensures AfterPulse(PpsStep(PpsRun(r, ratio, t.waits), ratio, t.pulse), ratio)
  {
    hide PpsStep;
    hide PpsInv;
    var e := PpsRun(r, ratio, t.waits);
    PulseIsEdge(r, ratio, t, n, delta);
    DoubledStands(r, ratio, t.waits);
    EdgeStep(e, ratio, t.pulse);
  }

  /** The last pulse was counted twice: the one before was not, and it collides. */
  predicate CountsTwice(r: PpsRegs, ratio: Ratio, ts: seq<Second>) {
    ts != [] &&
    var front, t := ts[..|ts| - 1], ts[|ts| - 1];
    && !CountsTwice(r, ratio, front)
    && t.waits != [] && Collides(ratio, AfterSeconds(r, ratio, front).sum, t.waits[0].delta, |t.waits| + 1)
  }

  /** In every run, whatever the distances of the pulses and whatever delta is held from one to
    the next, the pulses counted twice are those that collide after one counted once. */
  lemma {:induction false} PulsesCountTwice(r: PpsRegs, ratio: Ratio, ts: seq<Second>)
    requires AfterPulse(r, ratio) && ratio < 500_000_000 && forall j :: 0 <= j < |ts| ==> Held(ts[j])
    ensures var s := AfterSeconds(r, ratio, ts);
      if CountsTwice(r, ratio, ts) then Doubled(s, ratio) else AfterPulse(s, ratio)
  {
    hide PpsStep;
    hide AfterPulse;
    hide Doubled;
    hide Regular;
    hide Collides;
    if ts != [] {
      var m := |ts| - 1;
      PulsesCountTwice(r, ratio, ts[..m]);
      var s, t := AfterSeconds(r, ratio, ts[..m]), ts[m];
      if CountsTwice(r, ratio, ts[..m]) {
        SecondAfterDoubled(s, ratio, t, |t.waits| + 1, t.waits[0].delta);
      } else {
        SecondAfterRight(s, ratio, t, |t.waits| + 1, t.waits[0].delta);
      }
    }
  }

  /** Corrected for pulses exactly n cycles apart, within 60 microseconds of a second, the clock
    counts every other one twice for as long as they come: after an even number of them it is
    right, after an odd number it is about to run a second ahead and stand still until the next. */
  lemma {:induction false} EveryOtherPulseCountsTwice(r: PpsRegs, n: nat, ts: seq<Second>)
    requires Abs(BILLION - 8 * n) <= 60_000 && 0 < Delta(n) <= W32 - W28
    requires AfterPulse(r, 8) && Carried(r, Delta(n))
    requires forall j :: 0 <= j < |ts| ==> Regular(ts[j], n, Delta(n))
    ensures var s := AfterSeconds(r, 8, ts);
      Carried(s, Delta(n)) && if |ts| % 2 == 0 then AfterPulse(s, 8) else Doubled(s, 8)
  {
    hide PpsStep;
    hide PpsInv;
    hide Carried;
    hide Collides;
    hide Regular;
    hide CorrectedDelta;
    hide Abs;
    if ts != [] {
      var m := |ts| - 1;
      EveryOtherPulseCountsTwice(r, n, ts[..m]);
      var s := AfterSeconds(r, 8, ts[..m]);
      CarriedOverSecond(s, 8, ts[m], n, Delta(n));
      if m % 2 == 0 {
        SumOfCarried(s, Delta(n));
        NearSecondCollides(s.sum, n);
        SecondAfterRight(s, 8, ts[m], n, Delta(n));
      } else {
        SecondAfterDoubled(s, 8, ts[m], n, Delta(n));
      }
    }
  }

  lemma SumOfCarried(r: PpsRegs, delta: nat)
    requires Carried(r, delta)
    ensures delta <= r.sum < delta + W28
  {
  }

  // ---- pulses that are not exactly that far apart ----

  lemma {:induction false} RollsLater(ratio: Ratio, carry: nat, delta: nat, j: int, k: int)
    requires Rolls(ratio, carry, delta, j) && j <= k
    ensures Rolls(ratio, carry, delta, k)
    decreases k - j
  {
    if j < k {
      RollsLater(ratio, carry, delta, j, k - 1);
      RollsStays(ratio, carry, delta, k - 1);
    }
  }

  /** The pulses that collide are those of two consecutive cycles, the first being the one after
    that in which the local clock comes to its rollover. */
  lemma {:induction false} TwoCyclesCollide(ratio: Ratio, carry: nat, delta: nat, first: nat, n: nat)
    requires Rolls(ratio, carry, delta, first - 1) && !Rolls(ratio, carry, delta, first - 2)
    ensures Collides(ratio, carry, delta, n) <==> n == first || n == first + 1
  {
    hide Rolls;
    if n < first {
      if Rolls(ratio, carry, delta, n - 1) {
        RollsLater(ratio, carry, delta, n - 1, first - 2);
      }
    } else {
      RollsLater(ratio, carry, delta, first - 1, n - 1);
      if n <= first + 1 {
        if Rolls(ratio, carry, delta, n - 3) {
          RollsLater(ratio, carry, delta, n - 3, first - 2);
        }
      } else {
        RollsLater(ratio, carry, delta, first - 1, n - 3);
      }
    }
  }

  /** With the nominal delta and the carry that it leaves, a pulse collides if and only if it
    comes after a second or a cycle earlier. */
  lemma {:induction false} NominalCollides(carry: nat, n: nat)
    requires NOMINAL <= carry < NOMINAL + W28
    ensures Collides(8, carry, NOMINAL, n) <==> n == 124_999_999 || n == 125_000_000
  {
    TwoCyclesCollide(8, carry, NOMINAL, 124_999_999, n);
  }
}
