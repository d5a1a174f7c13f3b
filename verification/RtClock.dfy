/** The real-time clock (lib/hw/lsi/cores/rtclock/hdl/rtclock.v). */
module RtClock {
  import opened Arithmetic
  import opened Gmii

  /** Nanoseconds in a clock cycle. */
  type Ratio = r: nat | 0 < r <= 500_000_000 witness 8

  datatype ClockInput = ClockInput(enabled: bool, select: bool, pps: bool, pps2: bool, secConfig: nat, delta: nat)

  predicate Used(i: ClockInput) {
    if i.select then i.pps2 else i.pps
  }

  type Sec48 = s: nat | s < W48

  /** The registers of the clock that follows the pulses. */
  datatype PpsRegs = PpsRegs(
    secNext: Sec48, nsecNext: nat, total: nat, lastPeriod: nat, sum: nat,
    secInc: bool, done: bool, enabledPrev: bool, ppsPrev: bool)

  /** `free` is the clock that runs on its own. */
  datatype ClockRegs = ClockRegs(out: Time, free: Time, pps: PpsRegs)

  function FreeStep(t: Time, ratio: Ratio): Time {
    if t.nsec >= BILLION - ratio then Time((t.sec + 1) % W48, (t.nsec - (BILLION - ratio)) % W30)
    else Time(t.sec, (t.nsec + ratio) % W30)
  }

  predicate Enabling(r: PpsRegs, i: ClockInput) {
    !r.enabledPrev && i.enabled
  }

  predicate Edge(r: PpsRegs, i: ClockInput) {
    !r.ppsPrev && Used(i)
  }

  /** `nsec_next_pps` has come to the end of the second. */
  predicate AtRollover(r: PpsRegs, ratio: Ratio) {
    r.nsecNext >= BILLION - ratio
  }

  function PpsStep(r: PpsRegs, ratio: Ratio, i: ClockInput): PpsRegs {
    var s := r.(secInc := AtRollover(r, ratio), ppsPrev := Used(i), enabledPrev := i.enabled);
    if Enabling(r, i) then
      s.(secNext := i.secConfig % W48, nsecNext := 0, total := 0, sum := 0)
    else if Edge(r, i) then
      s.(nsecNext := ratio, total := ratio, secNext := if r.done then r.secNext else (r.secNext + 1) % W48,
         lastPeriod := r.total, done := false)
    else
      var t := s.(total := (r.total + ratio) % W30);
      if r.done then t
      else if !r.secInc then
        t.(nsecNext := (r.nsecNext + r.sum / W28 % 16) % W30, sum := (r.sum % W28 + i.delta) % W32)
      else
        t.(secNext := (r.secNext + 1) % W48, nsecNext := 0, done := true)
  }

  function ClockStep(r: ClockRegs, ratio: Ratio, reset: bool, i: ClockInput): ClockRegs {
    if reset then
      ClockRegs(Time(0, 0), Time(0, ratio),
                r.pps.(secNext := 0, nsecNext := ratio, lastPeriod := 0, sum := 0, secInc := false, done := false))
    else
      ClockRegs(if i.enabled then Time(r.pps.secNext, r.pps.nsecNext) else r.free,
                FreeStep(r.free, ratio), PpsStep(r.pps, ratio, i))
  }

  class Clock {
    const ratio: Ratio
    var out: Time
    var free: Time
    var pps: PpsRegs

    constructor (ratio: Ratio, r: ClockRegs)
      ensures this.ratio == ratio && Regs() == r
    {
      this.ratio := ratio;
      out, free, pps := r.out, r.free, r.pps;
    }

    function Regs(): ClockRegs
      reads this
    {
      ClockRegs(out, free, pps)
    }

    method StepFree()
      modifies this`free
      ensures free == FreeStep(old(free), ratio)
    {
      var secInc := free.nsec >= BILLION - ratio;
      if secInc {
        free := Time((free.sec + 1) % W48, (free.nsec - (BILLION - ratio)) % W30);
      } else {
        free := free.(nsec := (free.nsec + ratio) % W30);
      }
    }

    method StepPps(i: ClockInput)
      modifies this`pps
      ensures pps == PpsStep(old(pps), ratio, i)
    {
      var r := pps;
      pps := pps.(secInc := r.nsecNext >= BILLION - ratio, ppsPrev := Used(i), enabledPrev := i.enabled);
      if !r.enabledPrev && i.enabled {
        pps := pps.(secNext := i.secConfig % W48, nsecNext := 0, total := 0, sum := 0);
      } else if !r.ppsPrev && Used(i) {
        pps := pps.(nsecNext := ratio, total := ratio);
        if !r.done {
          pps := pps.(secNext := (r.secNext + 1) % W48);
        }
        pps := pps.(lastPeriod := r.total, done := false);
      } else {
        pps := pps.(total := (r.total + ratio) % W30);
        if !r.done {
          if !r.secInc {
            pps := pps.(nsecNext := (r.nsecNext + r.sum / W28 % 16) % W30, sum := (r.sum % W28 + i.delta) % W32);
          } else {
            pps := pps.(secNext := (r.secNext + 1) % W48, nsecNext := 0, done := true);
          }
        }
      }
    }

    method Step(reset: bool, i: ClockInput)
      modifies this
      ensures Regs() == ClockStep(old(Regs()), ratio, reset, i)
    {
      hide FreeStep;
      hide PpsStep;
      if reset {
        out, free := Time(0, 0), Time(0, ratio);
        pps := pps.(secNext := 0, nsecNext := ratio, lastPeriod := 0, sum := 0, secInc := false, done := false);
      } else {
        if i.enabled {
          out := Time(pps.secNext, pps.nsecNext);
        } else {
          out := free;
        }
        StepFree();
        StepPps(i);
      }
    }
  }

  // ---- the clock on its own ----

  /** The time a given number of nanoseconds after zero; seconds have 48 bits. */
  function TimeOf(ns: nat): (t: Time)
    ensures WellFormed(t) && Nanos(t) == ns % (W48 * BILLION)
  {
    DivideTwice(ns);
    Time(ns / BILLION % W48, ns % BILLION)
  }

  lemma DivideTwice(ns: nat)
    ensures ns / BILLION % W48 * BILLION + ns % BILLION == ns % (W48 * BILLION)
  {
    var q := ns / BILLION / W48;
    var r := ns / BILLION % W48 * BILLION + ns % BILLION;
    assert ns == q * (W48 * BILLION) + r;
    assert 0 <= r < W48 * BILLION;
  }

  lemma FreeStepAdds(ns: nat, ratio: Ratio)
    ensures FreeStep(TimeOf(ns), ratio) == TimeOf(ns + ratio)
  {
    SumParts(ns, ratio);
    NextSecond(ns / BILLION);
    assert ratio / BILLION == 0 && ratio % BILLION == ratio;
  }

  lemma NextSecond(s: nat)
    ensures (s % W48 + 1) % W48 == (s + 1) % W48
  {
  }

  function ClockRun(r: ClockRegs, ratio: Ratio, ins: seq<ClockInput>): ClockRegs {
    if ins == [] then r else ClockStep(ClockRun(r, ratio, ins[..|ins| - 1]), ratio, false, ins[|ins| - 1])
  }

  /** From a reset on, the clock on its own shows exactly the elapsed time, in every cycle
    in which the pulses are not enabled, whatever happened before. */
  lemma {:induction false} FreeClockIsExact(r: ClockRegs, ratio: Ratio, i: ClockInput, ins: seq<ClockInput>)
    ensures var s := ClockRun(ClockStep(r, ratio, true, i), ratio, ins);
      && s.free == TimeOf((|ins| + 1) * ratio)
      && (ins == [] || !ins[|ins| - 1].enabled ==> s.out == TimeOf(|ins| * ratio))
  {
    if ins != [] {
      hide PpsStep;
      FreeClockIsExact(r, ratio, i, ins[..|ins| - 1]);
      assert |ins[..|ins| - 1]| + 1 == |ins|;
      FreeStepAdds(|ins| * ratio, ratio);
      assert (|ins| + 1) * ratio == |ins| * ratio + ratio;
    }
  }

  lemma SumParts(a: nat, d: nat)
    ensures
      var borrow := if (a + d) % BILLION < a % BILLION then 1 else 0;
      && (a + d) / BILLION == a / BILLION + d / BILLION + borrow
      && (a + d) % BILLION == a % BILLION + d % BILLION - borrow * BILLION
  {
    assert a == a / BILLION * BILLION + a % BILLION && d == d / BILLION * BILLION + d % BILLION;
  }
}
