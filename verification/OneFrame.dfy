/** One frame, from its first octet to its publication. */
module OneFrame {
  import opened Arithmetic
  import opened Octets
  import opened CrcCheck
  import opened TrafficAnalyzer
  import opened Receiver
  import opened ReceiverRuns
  import opened LastError
  import opened LateStart

  lemma {:induction false} LogOfFrame(l: Log, i: Input, ins: seq<Input>)
    requires LogInv(l) && l.wire.cur == [] && !i.line.en && Busy(ins) && ins != []
    ensures var k := LogRun(l, [i] + ins);
      && k.wire.done == l.wire.done && k.tags == l.tags && k.wire.cur == OctetsIn(ins)
      && k.tag == Tag(ins[0].now, i.freeze) && !k.wire.ended
  {
    var n := |ins| - 1;
    assert ([i] + ins)[..n + 1] == [i] + ins[..n];
    if n == 0 {
      assert [i] + ins[..n] == [i] && [i][..0] == [];
      assert LogRun(l, [i]) == LogStep(l, i);
      assert OctetsIn(ins) == [ins[0].line.d];
    } else {
      LogOfFrame(l, i, ins[..n]);
      assert OctetsIn(ins) == OctetsIn(ins[..n]) + [ins[n].line.d];
    }
  }

  /** And with the two idle cycles in which it ends and is accounted for. */
  lemma {:induction false} LogOfWhole(l: Log, i: Input, ins: seq<Input>, j: Input, k: Input)
    requires LogInv(l) && l.wire.cur == [] && !i.line.en && Busy(ins) && ins != [] && !j.line.en && !k.line.en
    ensures var m := LogRun(l, [i] + ins + [j] + [k]);
      && LogInv(m) && !m.wire.ended
      && m.wire.done == l.wire.done + [OctetsIn(ins)] && m.tags == l.tags + [Tag(ins[0].now, i.freeze)]
  {
    var a, b := [i] + ins, [i] + ins + [j];
    LogOfFrame(l, i, ins);
    assert b[..|a|] == a && (b + [k])[..|b|] == b;
    assert LogRun(l, b) == LogStep(LogRun(l, a), j);
    assert LogRun(l, b + [k]) == LogStep(LogRun(l, b), k);
  }

  lemma {:induction false} PublishedNext(base: seq<Shifted>, frames: seq<seq<Octet>>, tags: seq<Tag>,
                                         f: seq<Octet>, tag: Tag)
    requires |base| >= 4 && |frames| == |tags|
    ensures Published(base, frames + [f], tags + [tag])
         == if tag.frozen then Published(base, frames, tags)
            else Snapshot(Tally(base, frames + [f], tags + [tag]).counters, tag.stamp, |f| % W32)
  {
    hide Tally;
    assert (frames + [f])[..|frames|] == frames && (tags + [tag])[..|tags|] == tags;
  }

  /** Whether a frame is published is decided by the freeze bit in the cycle before its first
    octet, whatever is written to it later. If it is, the copies are those of the counters with
    this frame, and show its size and the time of its first octet; otherwise they stay. */
  lemma {:induction false} FreezeDecides(r: Receiver, base: seq<Shifted>, l: Log, i: Input, ins: seq<Input>,
                                         j: Input, k: Input)
    requires ReceiverInv(r, base, l) && l.wire.cur == [] && !l.wire.ended && Running([i] + ins + [j] + [k])
    requires !i.line.en && Busy(ins) && ins != [] && !j.line.en && !k.line.en
    ensures var a := ReceiverRun(r, [i] + ins + [j] + [k]).ana;
      a.published == if i.freeze then r.ana.published else Snapshot(a.counters, ins[0].now, |ins| % W32)
  {
    var all := [i] + ins + [j] + [k];
    var m := LogRun(l, all);
    ReceiverRunInv(r, base, l, all);
    InvOfLog(r, base, l);
    LogOfWhole(l, i, ins, j, k);
    hide ReceiverInv;
    hide ReceiverRun;
    hide LogRun;
    hide LogInv;
    hide Published;
    hide Tally;
    hide Busy;
    hide Running;
    AllAccounted(r, base, l);
    AllAccounted(ReceiverRun(r, all), base, m);
    PublishedNext(base, l.wire.done, l.tags, OctetsIn(ins), Tag(ins[0].now, i.freeze));
  }

  /** When no frame has just ended, all are accounted for. */
  lemma {:induction false} AllAccounted(r: Receiver, base: seq<Shifted>, l: Log)
    requires ReceiverInv(r, base, l) && !l.wire.ended
    ensures |base| >= 4 && |l.wire.done| == |l.tags|
    ensures r.ana.counters == Tally(base, l.wire.done, l.tags).counters
    ensures r.ana.published == Published(base, l.wire.done, l.tags)
  {
    BaseIsLong(r, base, l);
    InvOfLog(r, base, l);
    hide ReceiverInv;
    hide Tally;
    hide Published;
    StatisticsAre(r, base, l);
    assert l.wire.done[..|l.wire.done|] == l.wire.done && l.tags[..|l.tags|] == l.tags;
  }

  lemma InvOfLog(r: Receiver, base: seq<Shifted>, l: Log)
    requires ReceiverInv(r, base, l)
    ensures LogInv(l)
  {
    hide CountInv;
    hide BufferInv;
    hide LatencyLogInv;
  }
}
