/** The correction of the clock
  (lib/sw/lsi/cores/rtclock/rtclock-pps-correction). */
module PpsCorrection {
  import opened Arithmetic
  import opened RtClock
  import opened PpsClock

  const NOMINAL: nat := 0x8000_0000

  /** Division in the shell rounds toward zero. */
  function Quotient(a: int, b: nat): int
    requires b > 0
  {
    if a >= 0 then a / b else -(-a / b)
  }

  /** `corrected_delta_pps_reg_value` for a measured period. */
  function CorrectedDelta(period: nat): int {
    NOMINAL + Quotient((BILLION - period) * NOMINAL, BILLION)
  }

  function Abs(x: int): nat {
    if x < 0 then -x else x
  }

  /** The delta fits the accumulator for every period from an eighth of a second on that
    the 30 bits of the measurement can hold. */
  lemma DeltaIsInRange(period: nat)
    requires BILLION / 8 <= period < W30
    ensures 0 < CorrectedDelta(period) <= 0x1_0000_0000 - W28
  {
  }

  lemma QuotientBounds(a: int, b: nat)
    requires b > 0
    ensures Abs(b * Quotient(a, b) - a) < b
  {
    if a >= 0 {
      assert a == a / b * b + a % b;
    } else {
      assert -a == (-a / b) * b + (-a) % b;
      assert b * -(-a / b) == -(b * (-a / b));
    }
  }

  /** The correction is rounded toward zero: down for a fast local clock, up for a slow one. */
  lemma CorrectionRounds(period: nat)
    ensures
      var e, q := 1_000_000_000 - period, CorrectedDelta(period) - 0x8000_0000;
      && (e >= 0 ==> 1_000_000_000 * q <= e * 0x8000_0000 < 1_000_000_000 * (q + 1))
      && (e <= 0 ==> 1_000_000_000 * (q - 1) < e * 0x8000_0000 <= 1_000_000_000 * q)
  {
    var a := (BILLION - period) * NOMINAL;
    if a >= 0 {
      assert a == a / BILLION * BILLION + a % BILLION;
    } else {
      assert -a == -a / BILLION * BILLION + (-a) % BILLION;
    }
  }

  /** With the corrected delta, the period of the pulses becomes a second up to the square
    of the error: `period * delta`, in units of 2 to the power -31 of a nanosecond. */
  lemma CorrectionIsQuadratic(period: nat)
    requires period < W30
    ensures var e := BILLION - period;
      BILLION * Abs(period * CorrectedDelta(period) - BILLION * NOMINAL) <= NOMINAL * (e * e) + BILLION * period
  {
    var e := BILLION - period;
    var q := Quotient(e * NOMINAL, BILLION);
    var rest := BILLION * q - e * NOMINAL;
    QuotientBounds(e * NOMINAL, BILLION);
    Expand(period, e, q);
    Scale(period, rest);
    var x := BILLION * (period * CorrectedDelta(period) - BILLION * NOMINAL);
    Collect(x, period * rest, NOMINAL * (e * e), BILLION * period);
  }

  lemma Expand(p: nat, e: int, q: int)
    requires p == BILLION - e
    ensures BILLION * (p * (NOMINAL + q) - BILLION * NOMINAL) == p * (BILLION * q - e * NOMINAL) - NOMINAL * (e * e)
  {
    assert p * q == BILLION * q - e * q;
    assert p * e == BILLION * e - e * e;
    assert p * (NOMINAL + q) == NOMINAL * p + p * q;
    assert p * (BILLION * q - e * NOMINAL) == BILLION * (p * q) - NOMINAL * (p * e);
  }

  lemma Scale(p: nat, rest: int)
    requires Abs(rest) < BILLION
    ensures Abs(p * rest) <= BILLION * p
  {
    var b: int := BILLION;
    Multiply(p, rest, b);
    Multiply(p, -b, rest);
  }

  lemma Collect(x: int, y: int, a: nat, b: nat)
    requires x == y - a && Abs(y) <= b
    ensures Abs(x) <= a + b
  {
  }

  /** The correction converges quadratically: for a measured period of n cycles of 8 ns,
    n steps of the accumulator with the corrected delta add a second, within the square
    of the error divided by 10 to the power 9, plus 2 ns, wherever they start. */
  lemma {:induction false} CorrectedClockKeepsSeconds(r: PpsRegs, ins: seq<ClockInput>)
    requires PpsInv(r, 8) && BILLION / 8 <= 8 * |ins| < W30
    requires Uninterrupted(r, 8, ins, CorrectedDelta(8 * |ins|))
    ensures var e := BILLION - 8 * |ins|;
      BILLION * Abs(Fine(PpsRun(r, 8, ins)) - Fine(r) - BILLION * W28) <= W28 * (e * e + 2 * BILLION)
  {
    hide CorrectedDelta;
    hide Abs;
    DeltaIsInRange(8 * |ins|);
    AccumulatorDoesNotDrift(r, 8, ins, CorrectedDelta(8 * |ins|));
    CorrectedCycles(|ins|);
  }

  lemma CorrectedCycles(n: nat)
    requires 8 * n < W30
    ensures var e := BILLION - 8 * n;
      BILLION * Abs(n * CorrectedDelta(8 * n) - BILLION * W28) <= W28 * (e * e + 2 * BILLION)
  {
    hide CorrectedDelta;
    var e, w := BILLION - 8 * n, n * CorrectedDelta(8 * n);
    CorrectionIsQuadratic(8 * n);
    assert 8 * n * CorrectedDelta(8 * n) == 8 * w;
    Eighth(w, e * e, 8 * n);
  }

  lemma Eighth(w: int, square: int, period: int)
    requires BILLION * Abs(8 * w - BILLION * NOMINAL) <= NOMINAL * square + BILLION * period && period < W30
    ensures BILLION * Abs(w - BILLION * W28) <= W28 * (square + 2 * BILLION)
  {
  }

  /** Without a correction the error is that of the measured period itself. */
  lemma {:induction false} NominalClockDrifts(r: PpsRegs, ins: seq<ClockInput>)
    requires PpsInv(r, 8) && Uninterrupted(r, 8, ins, NOMINAL)
    ensures Fine(PpsRun(r, 8, ins)) == Fine(r) + 8 * |ins| * W28
  {
    AccumulatorDoesNotDrift(r, 8, ins, NOMINAL);
  }
}
