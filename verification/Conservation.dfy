/** No octet and no frame is lost between the counters. */
module Conservation {
  import opened Arithmetic
  import opened Octets
  import opened Gmii
  import opened BramIo
  import opened CrcCheck
  import opened TestframeParser
  import opened TrafficAnalyzer
  import opened Receiver
  import opened ReceiverRuns

  function TotalOctets(frames: seq<seq<Octet>>): nat {
    if frames == [] then 0 else TotalOctets(frames[..|frames| - 1]) + |frames[|frames| - 1]|
  }

  /** The preamble octets, seven or eight in each frame with a good preamble. */
  function PreambleOctets(frames: seq<seq<Octet>>): nat {
    if frames == [] then 0 else PreambleOctets(frames[..|frames| - 1]) + DataStart(frames[|frames| - 1])
  }

  lemma {:induction false} FramesAreConserved(base: seq<Shifted>, frames: seq<seq<Octet>>)
    requires |base| >= 4
    ensures FramesOfKind(base, frames, Good) + FramesOfKind(base, frames, BadCrc)
              + FramesOfKind(base, frames, BadPreamble) == |frames|
  {
    hide KindOf;
    if frames != [] {
      FramesAreConserved(base, frames[..|frames| - 1]);
    }
  }

  function Share(base: seq<Shifted>, frames: seq<seq<Octet>>, k: Kind): nat
    requires |base| >= 4 && frames != []
  {
    if KindOf(base, frames) == k then Octets32(frames[|frames| - 1], k) else 0
  }

  /** What a frame of 4 GiB or more loses because its octets are counted in 32 bits. */
  function Dropped(f: seq<Octet>): nat {
    var n := if GoodPreamble(f) then |Data(f)| else |f|;
    n / W32 * W32
  }

  function DroppedOctets(frames: seq<seq<Octet>>): nat {
    if frames == [] then 0 else DroppedOctets(frames[..|frames| - 1]) + Dropped(frames[|frames| - 1])
  }

  /** Shorter frames lose nothing, longer ones do. */
  lemma {:induction false} NothingIsDropped(frames: seq<seq<Octet>>)
    ensures DroppedOctets(frames) == 0
       <==> forall f :: f in frames ==> (if GoodPreamble(f) then |Data(f)| else |f|) < W32
  {
    hide Data;
    hide GoodPreamble;
    if frames != [] {
      var n := |frames| - 1;
      NothingIsDropped(frames[..n]);
      assert frames == frames[..n] + [frames[n]];
    }
  }

  lemma OneFrameIsConserved(base: seq<Shifted>, frames: seq<seq<Octet>>)
    requires |base| >= 4 && frames != []
    ensures var f := frames[|frames| - 1];
      Share(base, frames, Good) + Share(base, frames, BadCrc) + Share(base, frames, BadPreamble)
        + DataStart(f) + Dropped(f) == |f|
  {
    var f := frames[|frames| - 1];
    assert KindOf(base, frames) == BadPreamble <==> !GoodPreamble(f);
    assert GoodPreamble(f) ==> DataStart(f) + |Data(f)| == |f|;
    hide KindOf;
    hide Data;
  }

  lemma {:induction false} OctetsAreConserved(base: seq<Shifted>, frames: seq<seq<Octet>>)
    requires |base| >= 4
    ensures OctetsOfKind(base, frames, Good) + OctetsOfKind(base, frames, BadCrc)
              + OctetsOfKind(base, frames, BadPreamble)
              + PreambleOctets(frames) + DroppedOctets(frames) == TotalOctets(frames)
  {
    hide KindOf;
    hide Octets32;
    hide DataStart;
    if frames != [] {
      var front := frames[..|frames| - 1];
      OctetsAreConserved(base, front);
      OneFrameIsConserved(base, frames);
      OctetsOfKindLast(base, frames, Good);
      OctetsOfKindLast(base, frames, BadCrc);
      OctetsOfKindLast(base, frames, BadPreamble);
      hide Share;
      hide Dropped;
    }
  }

  lemma {:induction false} OctetsOfKindLast(base: seq<Shifted>, frames: seq<seq<Octet>>, k: Kind)
    requires |base| >= 4 && frames != []
    ensures OctetsOfKind(base, frames, k) == OctetsOfKind(base, frames[..|frames| - 1], k) + Share(base, frames, k)
  {
    hide KindOf;
    hide Octets32;
  }

  /** Octets of the frame in progress and of one that has ended but is not yet accounted for. */
  function Unaccounted(l: Log): nat
    requires LogInv(l)
  {
    |l.wire.cur| + (if l.wire.ended then |l.wire.done[|l.wire.done| - 1]| else 0)
  }

  /** Every cycle is either idle or brings one octet of some frame. */
  ghost predicate CyclesBalance(l: Log)
    requires LogInv(l)
  {
    l.total - l.idle == TotalOctets(l.wire.done[..AccountedCount(l)]) + Unaccounted(l)
  }

  lemma CyclesBalanceStep(l: Log, i: Input)
    requires LogInv(l) && CyclesBalance(l)
    ensures LogInv(LogStep(l, i)) && CyclesBalance(LogStep(l, i))
  {
    var l' := LogStep(l, i);
    var n, n' := AccountedCount(l), AccountedCount(l');
    assert l'.wire.done[..|l.wire.done|] == l.wire.done;
    if l.wire.ended {
      assert l'.wire.done[..n'] == l.wire.done && n' == n + 1;
      assert l.wire.done[..n' - 1] == l.wire.done[..n];
    } else {
      assert l'.wire.done[..n'] == l.wire.done[..n];
    }
  }

  lemma {:induction false} LogRunBalances(l: Log, ins: seq<Input>)
    requires LogInv(l) && CyclesBalance(l)
    ensures LogInv(LogRun(l, ins)) && CyclesBalance(LogRun(l, ins))
  {
    if ins != [] {
      var front := ins[..|ins| - 1];
      LogRunBalances(l, front);
      CyclesBalanceStep(LogRun(l, front), ins[|ins| - 1]);
    }
  }

  lemma ModuloSum(a: nat, b: nat, c: nat, d: nat)
    ensures (a % W64 + b % W64 + c % W64 + d) % W64 == (a + b + c + d) % W64
  {
    ModuloOfSum(a, b % W64 + c % W64 + d, W64);
    ModuloOfSum(b, a + c % W64 + d, W64);
    ModuloOfSum(c, a + b + d, W64);
  }

  /** The 64-bit counters account for every octet received, once, and for every frame. */
  ghost predicate Balanced(a: AnalyzerRegs, l: Log)
    requires LogInv(l)
  {
    var frames, c := l.wire.done[..AccountedCount(l)], a.counters;
    && (a.octetsTotal - a.octetsIdle) % W64 ==
         (c.octets + c.badCrcOctets + c.badPreambleOctets + PreambleOctets(frames) + DroppedOctets(frames)
            + Unaccounted(l)) % W64
    && (c.pkts + c.badCrcPkts + c.badPreamblePkts) % W64 == |frames| % W64
  }

  lemma CountersAreBalanced(a: AnalyzerRegs, base: seq<Shifted>, l: Log)
    requires LogInv(l) && CyclesBalance(l) && |base| >= 4
    requires a.octetsTotal == l.total % W64 && a.octetsIdle == l.idle % W64
    requires forall k :: CountedKind(a.counters, base, l.wire.done[..AccountedCount(l)], k)
    ensures Balanced(a, l)
  {
    hide CountedKind;
    hide KindOf;
    CountersBalance(a.counters, base, l.wire.done[..AccountedCount(l)], l.total - l.idle, Unaccounted(l));
    ModuloOfDifference(l.total, l.idle, 0, W64);
  }

  /** So it is in every reachable state. */
  lemma {:induction false} OctetConservation(r: Receiver, base: seq<Shifted>, freeze: bool, ins: seq<Input>)
    requires ReceiverInv(r, base, EmptyLog(freeze)) && Running(ins)
    ensures LogInv(LogRun(EmptyLog(freeze), ins))
    ensures Balanced(ReceiverRun(r, ins).ana, LogRun(EmptyLog(freeze), ins))
  {
    hide ReceiverInv;
    hide CountedKind;
    hide CyclesBalance;
    var l := LogRun(EmptyLog(freeze), ins);
    ReceiverRunInv(r, base, EmptyLog(freeze), ins);
    assert CyclesBalance(EmptyLog(freeze)) by { EmptyLogBalances(freeze); }
    LogRunBalances(EmptyLog(freeze), ins);
    CountersShow(ReceiverRun(r, ins), base, l);
    CountersAreBalanced(ReceiverRun(r, ins).ana, base, l);
    hide Balanced;
  }

  lemma EmptyLogBalances(freeze: bool)
    ensures CyclesBalance(EmptyLog(freeze))
  {
  }

  lemma CountersShow(r: Receiver, base: seq<Shifted>, l: Log)
    requires ReceiverInv(r, base, l)
    ensures LogInv(l) && |base| >= 4
    ensures r.ana.octetsTotal == l.total % W64 && r.ana.octetsIdle == l.idle % W64
    ensures forall k :: CountedKind(r.ana.counters, base, l.wire.done[..AccountedCount(l)], k)
  {
    assert LogInv(l) && |base| >= 4;
    hide CheckInv;
    hide ParserInv;
    hide FrameInv;
    hide BufferInv;
    hide LatencyLogInv;
    hide CountedKind;
    var n := AccountedCount(l);
    forall k {
      TallyCounts(base, l.wire.done[..n], l.tags[..n], k);
    }
  }

  lemma {:induction false} CountersBalance(c: Counters, base: seq<Shifted>, frames: seq<seq<Octet>>, received: int,
                                           rest: nat)
    requires |base| >= 4
    requires CountedKind(c, base, frames, Good) && CountedKind(c, base, frames, BadCrc)
    requires CountedKind(c, base, frames, BadPreamble)
    requires received == TotalOctets(frames) + rest
    ensures received % W64 ==
      (c.octets + c.badCrcOctets + c.badPreambleOctets + PreambleOctets(frames) + DroppedOctets(frames) + rest) % W64
    ensures (c.pkts + c.badCrcPkts + c.badPreamblePkts) % W64 == |frames| % W64
  {
    hide KindOf;
    hide Octets32;
    FramesAreConserved(base, frames);
    OctetsAreConserved(base, frames);
    ModuloSum(FramesOfKind(base, frames, Good), FramesOfKind(base, frames, BadCrc),
              FramesOfKind(base, frames, BadPreamble), 0);
    ModuloSum(OctetsOfKind(base, frames, Good), OctetsOfKind(base, frames, BadCrc),
              OctetsOfKind(base, frames, BadPreamble), PreambleOctets(frames) + DroppedOctets(frames) + rest);
  }

  // ---- the copies of the cycle counters ----

  lemma CopiesOfCycles(a: AnalyzerRegs, i: Input, p: Report)
    requires a.run
    ensures var b := AnalyzeStep(a, false, i, p);
      && b.octetsIdleReg == (if a.freeze then a.octetsIdleReg else a.octetsIdle)
      && b.octetsTotalReg == (if a.freeze then a.octetsTotalReg else a.octetsTotal)
      && b.run == i.run && b.freeze == i.freeze
  {
    hide LatencyStep;
    hide Written;
    hide WithLane;
    hide Account;
    hide Add64;
  }

  lemma FreezeIsLogged(r: Receiver, base: seq<Shifted>, l: Log)
    requires ReceiverInv(r, base, l)
    ensures r.ana.run && r.ana.freeze == l.freeze
  {
    hide CheckInv;
    hide ParserInv;
    hide CountInv;
    hide BufferInv;
    hide LatencyLogInv;
  }

  /** The copies of the cycle counters are one cycle behind, and stand still while the
    statistics are frozen: they are the cycles up to the last edge with the freeze bit clear. */
  lemma {:induction false} CyclesAreShown(r: Receiver, base: seq<Shifted>, l: Log, i: Input, ins: seq<Input>)
    requires ReceiverInv(r, base, l) && !l.freeze && Running([i] + ins)
    requires forall k :: 0 <= k < |ins| ==> ([i] + ins)[k].freeze
    ensures var a := ReceiverRun(r, [i] + ins).ana;
      && a.octetsIdleReg == l.idle % W64 && a.octetsTotalReg == l.total % W64
      && a.run && a.freeze == ([i] + ins)[|ins|].freeze
  {
    hide ReceiverInv;
    hide AnalyzeStep;
    hide CheckStep;
    hide ParseStep;
    var all, n := [i] + ins, |ins|;
    if n == 0 {
      assert all[..0] == [];
      CountersShow(r, base, l);
      FreezeIsLogged(r, base, l);
      assert ReceiverRun(r, all) == ReceiverStep(r, i) && all[0] == i;
      CopiesOfCycles(r.ana, i, ReportOf(r));
    } else {
      assert all[..n] == [i] + ins[..n - 1];
      CyclesAreShown(r, base, l, i, ins[..n - 1]);
      var s := ReceiverRun(r, all[..n]);
      CopiesOfCycles(s.ana, all[n], ReportOf(s));
    }
  }
}
