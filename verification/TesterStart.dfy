/** Starting the tester. */
module TesterStart {
  import opened Arithmetic
  import opened Gmii
  import opened CrcCheck
  import opened Receiver
  import opened ReceiverRuns
  import opened TrafficGenerator
  import opened GeneratorStream
  import opened GeneratorRuns
  import opened RtClock
  import opened FilterGmii
  import opened TesterLoop
  import opened TesterRuns

  // ---- the filter, which has no reset ----

  /** The filter powers up in state 0, and gets into state 1 with a frame on the line. */
  predicate Reachable(r: FilterRegs) {
    r.state <= 1 && (r.state == 1 ==> r.line.en)
  }

  lemma StaysReachable(r: FilterRegs, minGap: nat, c: Cycle)
    requires Reachable(r)
    ensures Reachable(FilterStep(r, minGap, c))
  {
  }

  /** The idle cycles after which the filter will let the next frame through. */
  function Rest(r: FilterRegs): nat {
    if r.state == 1 then (r.minGap - 9) % W32 + 1 else r.delay
  }

  /** That many, and one more for its output. */
  ghost predicate Resting(r: FilterRegs, minGap: nat, n: nat) {
    Reachable(r) && r.minGap == minGap && Rest(r) <= n
  }

  lemma IdleStep(r: FilterRegs, minGap: nat, n: nat)
    requires Resting(r, minGap, n)
    ensures Resting(FilterStep(r, minGap, IDLE), minGap, if n > 0 then n - 1 else 0)
    ensures n == 0 ==> FilterStep(r, minGap, IDLE).out == IDLE && Waiting(FilterStep(r, minGap, IDLE), minGap)
  {
  }

  // ---- reset, some idle cycles, start ----

  /** A reset; the filter has none. */
  function TesterReset(s: Tester, u: Setup, rx: Receiver, i: ClockInput): Tester {
    Tester(ClockStep(s.clock, u.ratio, true, i), GenerateStep(s.gen, u.gen, u.mem, true, s.clock.out),
           FilterStep(s.filter, u.minGap, s.gen.pipe.gmii), rx)
  }

  /** Clock edges while generator and analyzer are stopped. */
  function StoppedRun(s: Tester, u: Setup, js: seq<ClockInput>): Tester {
    if js == [] then s else TesterEdge(StoppedRun(s, u, js[..|js| - 1]), u, false, js[|js| - 1])
  }

  function WithoutRun(u: Setup): Setup {
    u.(gen := u.gen.(run := false))
  }

  lemma {:induction false} StaysStopped(s: Tester, u: Setup, js: seq<ClockInput>)
    requires Stopped(s.gen) && !u.gen.run
    ensures Stopped(StoppedRun(s, u, js).gen)
  {
    hide ClockStep;
    hide GenerateStep;
    hide FilterStep;
    hide ReceiverStep;
    if js != [] {
      var front := StoppedRun(s, u, js[..|js| - 1]);
      StaysStopped(s, u, js[..|js| - 1]);
      StoppedUntilStarted(front.gen, u.gen, u.mem, front.clock.out);
    }
  }

  lemma {:induction false} FilterSettles(s: Tester, u: Setup, js: seq<ClockInput>, n: nat)
    requires Stopped(s.gen) && !u.gen.run && Resting(s.filter, u.minGap, n)
    ensures var r := StoppedRun(s, u, js).filter;
      && Resting(r, u.minGap, if n > |js| then n - |js| else 0)
      && (|js| > n ==> r.out == IDLE && Waiting(r, u.minGap))
  {
    hide ClockStep;
    hide GenerateStep;
    hide FilterStep;
    hide ReceiverStep;
    hide Resting;
    hide Waiting;
    if js != [] {
      var k := |js| - 1;
      FilterSettles(s, u, js[..k], n);
      StaysStopped(s, u, js[..k]);
      IdleStep(StoppedRun(s, u, js[..k]).filter, u.minGap, if n > k then n - k else 0);
    }
  }

  lemma {:induction false} ClockRuns(s: Tester, u: Setup, js: seq<ClockInput>)
    ensures StoppedRun(s, u, js).clock == ClockRun(s.clock, u.ratio, js)
  {
    hide ClockStep;
    hide GenerateStep;
    hide FilterStep;
    hide ReceiverStep;
    if js != [] {
      ClockRuns(s, u, js[..|js| - 1]);
    }
  }

  /** The setup before the last edge, at which generator and analyzer are switched on. */
  lemma {:induction false} StartEdge(s: Tester, u: Setup, k: ClockInput, x: nat)
    requires Usable(u.gen) && u.minGap < W32 && !k.enabled && Stopped(s.gen)
    requires s.filter.out == IDLE && Waiting(s.filter, u.minGap)
    requires var clock := ClockStep(s.clock, u.ratio, false, k); Ticking(clock, u.ratio, x)
    ensures Start(TesterEdge(s, u, true, k), u, x)
  {
    assert u.gen.run;
    hide ClockStep;
    hide GenerateStep;
    hide ReceiverStep;
    hide Ready;
    hide Ticking;
    hide Usable;
    StoppedUntilStarted(s.gen, u.gen, u.mem, s.clock.out);
  }

  function Elapsed(ratio: Ratio, cycles: nat): nat {
    cycles * ratio
  }

  lemma FilterAfterReset(s: Tester, u: Setup, rx: Receiver, i: ClockInput, n: nat)
    requires Reachable(s.filter) && Rest(TesterReset(s, u, rx, i).filter) <= n
    ensures Resting(TesterReset(s, u, rx, i).filter, u.minGap, n)
  {
    hide ClockStep;
    hide GenerateStep;
  }

  lemma {:induction false} ClockAtStart(s: Tester, u: Setup, rx: Receiver, i: ClockInput, js: seq<ClockInput>,
                                        k: ClockInput)
    requires !k.enabled
    ensures var last := StoppedRun(TesterReset(s, u, rx, i), u, js);
      Ticking(ClockStep(last.clock, u.ratio, false, k), u.ratio, Elapsed(u.ratio, |js| + 1))
  {
    hide ClockStep;
    hide GenerateStep;
    hide FilterStep;
    hide ReceiverStep;
    hide TimeOf;
    ClockRuns(TesterReset(s, u, rx, i), u, js);
    FreeClockIsExact(s.clock, u.ratio, i, js + [k]);
    assert (js + [k])[..|js|] == js;
    assert (|js| + 2) * u.ratio == Elapsed(u.ratio, |js| + 1) + u.ratio;
  }

  lemma LineIsIdle(s: Tester, u: Setup, run: bool)
    requires Stopped(s.gen) && s.filter.out == IDLE
    ensures InputToAnalyzer(s, u, run).line == IDLE
  {
  }

  /** After a reset at any time, enough cycles with generator and analyzer stopped for the
    filter to settle, and a cycle in which both are switched on, the tester is set up -
    whatever was in the registers, and whatever was on its way. */
  lemma {:induction false} TesterStarts(s: Tester, u: Setup, rx: Receiver, i: ClockInput, js: seq<ClockInput>,
                                        k: ClockInput)
    requires Usable(u.gen) && u.minGap < W32 && !k.enabled && Reachable(s.filter)
    requires |js| >= Rest(TesterReset(s, u, rx, i).filter) + 2
    ensures
      var s' := TesterEdge(StoppedRun(TesterReset(s, WithoutRun(u), rx, i), WithoutRun(u), js), u, true, k);
      Start(s', u, Elapsed(u.ratio, |js| + 1)) && ReceiverInv(s'.rx, PowerUp(s'.rx.check), EmptyLog(false))
  {
    hide ClockStep;
    hide GenerateStep;
    hide FilterStep;
    hide ReceiverStep;
    hide ReceiverInv;
    hide Usable;
    hide Stopped;
    var v, m := WithoutRun(u), |js| - 1;
    var s1 := TesterReset(s, v, rx, i);
    var front, last := StoppedRun(s1, v, js[..m]), StoppedRun(s1, v, js);
    ResetStops(s.gen, v.gen, u.mem, s.clock.out);
    StaysReachable(s.filter, u.minGap, s.gen.pipe.gmii);
    FilterAfterReset(s, v, rx, i, m - 1);
    FilterSettles(s1, v, js[..m], m - 1);
    FilterSettles(s1, v, js, m - 1);
    StaysStopped(s1, v, js[..m]);
    StaysStopped(s1, v, js);
    ClockAtStart(s, v, rx, i, js, k);
    StartEdge(last, u, k, Elapsed(u.ratio, |js| + 1));
    LineIsIdle(front, v, false);
    LineIsIdle(last, u, true);
    StartEstablishesInv(front.rx, InputToAnalyzer(front, v, false), InputToAnalyzer(last, u, true));
  }
}
