/** The filter for frames that follow each other too closely
  (lib/hw/lsi/cores/filter_gmii/hdl/filter_gmii.v). */
module FilterGmii {
  import opened Arithmetic
  import opened Octets
  import opened Gmii

  datatype FilterRegs = FilterRegs(state: nat, delay: nat, minGap: nat, line: Cycle, out: Cycle)

  function FilterStep(r: FilterRegs, minGap: nat, c: Cycle): FilterRegs {
    if r.state == 1 then
      FilterRegs(if !c.en && r.line.en then 0 else 1,
                 if !c.en && r.line.en then (r.minGap - 9) % W32 else r.delay,
                 minGap, c, r.line)
    else
      FilterRegs(if c.en && !r.line.en && r.delay == 0 then 1 else r.state,
                 if r.delay > 0 then r.delay - 1 else 0,
                 minGap, c, IDLE)
  }

  class Filter {
    var state: nat
    var delay: nat
    var minGap: nat
    var line: Cycle
    var out: Cycle

    constructor (r: FilterRegs)
      requires r.state == 0 && r.delay == 0
      ensures Regs() == r
    {
      state, delay, minGap, line, out := r.state, r.delay, r.minGap, r.line, r.out;
    }

    function Regs(): FilterRegs
      reads this
    {
      FilterRegs(state, delay, minGap, line, out)
    }

    method Step(gap: nat, c: Cycle)
      modifies this
      ensures Regs() == FilterStep(old(Regs()), gap, c)
    {
      var before := line;
      if state == 1 {
        out := before;
        if !c.en && before.en {
          state := 0;
          delay := (minGap - 9) % W32;
        }
      } else {
        out := IDLE;
        if c.en && !before.en && delay == 0 {
          state := 1;
        }
        if delay > 0 {
          delay := delay - 1;
        }
      }
      minGap, line := gap, c;
    }
  }

  // ---- which cycles are forwarded ----

  /** The least number of idle cycles after a forwarded frame: the register less the eight
    octets of a preamble, unless the register is below 9. */
  function LeastGap(minGap: nat): (n: nat)
    requires minGap < W32
    ensures n > 0
    ensures n == if minGap >= 9 then minGap - 8 else minGap + W32 - 8
  {
    (minGap - 9) % W32 + 1
  }

  predicate Rises(ins: seq<Cycle>, t: nat)
    requires t < |ins|
  {
    ins[t].en && (t > 0 ==> !ins[t - 1].en)
  }

  /** A frame is forwarded from its first cycle on exactly when the least gap has passed
    since every forwarded cycle before it. */
  ghost predicate Forwarded(ins: seq<Cycle>, gap: nat, t: nat)
    requires t < |ins|
    decreases t
  {
    ins[t].en &&
    if Rises(ins, t) then forall u :: 0 <= u < t && Forwarded(ins, gap, u) ==> t - u > gap
    else Forwarded(ins, gap, t - 1)
  }

  ghost function LastForwarded(ins: seq<Cycle>, gap: nat, t: nat): (u: int)
    requires t <= |ins|
    ensures -1 <= u < t
    ensures u >= 0 ==> Forwarded(ins, gap, u)
    ensures forall v :: u < v < t ==> !Forwarded(ins, gap, v)
  {
    if t == 0 then -1 else if Forwarded(ins, gap, t - 1) then t - 1 else LastForwarded(ins, gap, t - 1)
  }

  /** A frame is forwarded if and only if it is the first, or at least the least gap of idle
    or blanked cycles lies between it and the last forwarded cycle. */
  lemma {:induction false} ForwardedAfterGap(ins: seq<Cycle>, gap: nat, t: nat)
    requires t < |ins| && Rises(ins, t)
    ensures var u := LastForwarded(ins, gap, t);
      Forwarded(ins, gap, t) <==> u < 0 || t - u - 1 >= gap
  {
    var u := LastForwarded(ins, gap, t);
    assert u >= 0 ==> Forwarded(ins, gap, u);
  }

  /** What the filter remembers of the first t cycles. */
  ghost predicate FilterInv(r: FilterRegs, minGap: nat, ins: seq<Cycle>, t: nat)
    requires minGap < W32 && t <= |ins|
  {
    var gap := LeastGap(minGap);
    var u := LastForwarded(ins, gap, t);
    && r.minGap == minGap
    && r.line.en == (t > 0 && ins[t - 1].en) && (t > 0 ==> r.line == ins[t - 1])
    && r.state == (if t > 0 && u == t - 1 then 1 else 0)
    && r.delay == (if u < 0 || u == t - 1 || u + 1 + gap < t then 0 else u + 1 + gap - t)
  }

  lemma FilterStepInv(r: FilterRegs, minGap: nat, ins: seq<Cycle>, t: nat)
    requires minGap < W32 && t < |ins| && FilterInv(r, minGap, ins, t)
    ensures var r' := FilterStep(r, minGap, ins[t]);
      && FilterInv(r', minGap, ins, t + 1)
      && r'.out == if t > 0 && Forwarded(ins, LeastGap(minGap), t - 1) then ins[t - 1] else IDLE
  {
    var gap := LeastGap(minGap);
    var u := LastForwarded(ins, gap, t);
    if Rises(ins, t) {
      ForwardedAfterGap(ins, gap, t);
    } else if ins[t].en {
      assert Forwarded(ins, gap, t) <==> u == t - 1;
    }
  }

  function FilterRun(r: FilterRegs, minGap: nat, ins: seq<Cycle>, t: nat): FilterRegs
    requires t <= |ins|
  {
    if t == 0 then r else FilterStep(FilterRun(r, minGap, ins, t - 1), minGap, ins[t - 1])
  }

  /** Before the first frame. */
  predicate Waiting(r: FilterRegs, minGap: nat) {
    r.state == 0 && r.delay == 0 && !r.line.en && r.minGap == minGap
  }

  /** The filter delays the line by two cycles and blanks what is not forwarded. */
  lemma {:induction false} FilterForwards(r: FilterRegs, minGap: nat, ins: seq<Cycle>, t: nat)
    requires minGap < W32 && Waiting(r, minGap) && t <= |ins|
    ensures FilterInv(FilterRun(r, minGap, ins, t), minGap, ins, t)
    ensures t > 0 ==> FilterRun(r, minGap, ins, t).out
                      == if t > 1 && Forwarded(ins, LeastGap(minGap), t - 2) then ins[t - 2] else IDLE
  {
    if t > 0 {
      hide FilterStep;
      hide Forwarded;
      FilterForwards(r, minGap, ins, t - 1);
      hide FilterInv;
      FilterStepInv(FilterRun(r, minGap, ins, t - 1), minGap, ins, t - 1);
    }
  }

  // ---- what that means ----

  /** All or nothing: a cycle of a frame is forwarded exactly when the first one is. */
  lemma {:induction false} FrameIsWhole(ins: seq<Cycle>, gap: nat, a: nat, t: nat)
    requires a <= t < |ins| && Rises(ins, a) && forall v :: a <= v <= t ==> ins[v].en
    ensures Forwarded(ins, gap, t) <==> Forwarded(ins, gap, a)
  {
    if t > a {
      FrameIsWhole(ins, gap, a, t - 1);
    }
  }

  /** Gaps between forwarded frames are never shorter than the least gap. */
  lemma GapsAreKept(ins: seq<Cycle>, gap: nat, u: nat, t: nat)
    requires u < t < |ins| && Forwarded(ins, gap, u) && Forwarded(ins, gap, t) && !Forwarded(ins, gap, t - 1)
    ensures t - u > gap
  {
    assert Rises(ins, t);
  }

  /** The first frame is always forwarded. */
  lemma {:induction false} FirstFrameIsForwarded(ins: seq<Cycle>, gap: nat, t: nat)
    requires t < |ins| && Rises(ins, t) && forall u :: 0 <= u < t ==> !ins[u].en
    ensures Forwarded(ins, gap, t)
  {
    forall u | 0 <= u < t
      ensures !Forwarded(ins, gap, u)
    {
      assert !ins[u].en;
    }
  }

  ghost function Passed(ins: seq<Cycle>, gap: nat, t: nat): (s: seq<Cycle>)
    requires t <= |ins|
    ensures |s| == t
  {
    if t == 0 then []
    else Passed(ins, gap, t - 1) + [if Forwarded(ins, gap, t - 1) then ins[t - 1] else IDLE]
  }

  /** The frames that end among the first t cycles and were forwarded. */
  ghost function ForwardedFrames(ins: seq<Cycle>, gap: nat, t: nat): seq<seq<Octet>>
    requires t <= |ins|
  {
    if t == 0 then []
    else
      var cur := WireRun(SILENT, ins[..t - 1]).cur;
      ForwardedFrames(ins, gap, t - 1) +
      if !ins[t - 1].en && cur != [] && t > 1 && Forwarded(ins, gap, t - 2) then [cur] else []
  }

  /** No frame is ever cut: on the outgoing line there are whole frames of the incoming one. */
  lemma {:induction false} NoFrameIsCut(ins: seq<Cycle>, gap: nat, t: nat)
    requires t <= |ins|
    ensures var w, v := WireRun(SILENT, ins[..t]), WireRun(SILENT, Passed(ins, gap, t));
      && v.cur == (if t > 0 && Forwarded(ins, gap, t - 1) then w.cur else [])
      && v.done == ForwardedFrames(ins, gap, t)
    ensures (WireRun(SILENT, ins[..t]).cur != []) == (t > 0 && ins[t - 1].en)
  {
    if t > 0 {
      NoFrameIsCut(ins, gap, t - 1);
      assert ins[..t] == ins[..t - 1] + [ins[t - 1]];
      WireRunSnoc(SILENT, ins[..t - 1], ins[t - 1]);
      WireRunSnoc(SILENT, Passed(ins, gap, t - 1), if Forwarded(ins, gap, t - 1) then ins[t - 1] else IDLE);
    }
  }

  /** When every gap on the line is at least the least one, everything is forwarded. */
  ghost predicate WellSpaced(ins: seq<Cycle>, gap: nat) {
    forall u, t :: 0 <= u < t < |ins| && ins[u].en && Rises(ins, t) ==> t - u > gap
  }

  lemma {:induction false} WellSpacedPasses(ins: seq<Cycle>, gap: nat, t: nat)
    requires WellSpaced(ins, gap) && t < |ins|
    ensures Forwarded(ins, gap, t) <==> ins[t].en
  {
    if ins[t].en && !Rises(ins, t) {
      WellSpacedPasses(ins, gap, t - 1);
    }
  }
}
