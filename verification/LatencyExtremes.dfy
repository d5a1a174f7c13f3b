/** The latency statistics are the true ones. */
module LatencyExtremes {
  import opened Arithmetic
  import opened Octets
  import opened Gmii
  import opened CrcCheck
  import opened TestframeParser
  import opened TrafficAnalyzer
  import opened Receiver

  /** Borrowing included, the latency is the true difference, and again well formed. */
  lemma LatencyIsDifference(received: Time, sent: Time)
    requires WellFormed(received) && WellFormed(sent) && Nanos(sent) <= Nanos(received)
    ensures WellFormed(Latency(received, sent))
    ensures Nanos(Latency(received, sent)) == Nanos(received) - Nanos(sent)
  {
  }

  /** The concatenation the hardware compares orders well-formed times by their nanoseconds. */
  lemma KeyOrdersNanos(a: Time, b: Time)
    requires WellFormed(a) && WellFormed(b)
    ensures Key(a) < Key(b) <==> Nanos(a) < Nanos(b)
  {
    assert Key(a) == a.sec * W30 + a.nsec && Key(b) == b.sec * W30 + b.nsec;
    hide Key;
  }

  lemma AnythingIsBelowNoMinimum(a: Time)
    requires WellFormed(a)
    ensures Key(a) < Key(NO_MINIMUM)
  {
  }

  /** Every test frame among the frames carries a well-formed time not after its arrival. */
  ghost predicate SaneStamps(base: seq<Shifted>, frames: seq<seq<Octet>>, tags: seq<Tag>)
    requires |base| >= 4 && |frames| == |tags|
  {
    frames != [] ==>
      var n := |frames| - 1;
      && SaneStamps(base, frames[..n], tags[..n])
      && (Timed(base, frames) ==>
            var sent := ReportOn(base, frames).sent;
            WellFormed(sent) && WellFormed(tags[n].stamp) && Nanos(sent) <= Nanos(tags[n].stamp))
  }

  /** The latencies of the test frames in nanoseconds, in order. */
  ghost function TrueLatencies(base: seq<Shifted>, frames: seq<seq<Octet>>, tags: seq<Tag>): seq<int>
    requires |base| >= 4 && |frames| == |tags|
  {
    if frames == [] then []
    else
      var n := |frames| - 1;
      TrueLatencies(base, frames[..n], tags[..n])
      + (if Timed(base, frames) then [Nanos(tags[n].stamp) - Nanos(ReportOn(base, frames).sent)] else [])
  }

  /** e shows the last, the least and the greatest of the latencies. */
  ghost predicate ExtremesOf(e: Extremes, ls: seq<int>) {
    if ls == [] then
      e.min == NO_MINIMUM && e.max == Time(0, 0)
    else
      && WellFormed(e.last) && WellFormed(e.min) && WellFormed(e.max)
      && Nanos(e.last) == ls[|ls| - 1]
      && Nanos(e.min) in ls && (forall k :: 0 <= k < |ls| ==> Nanos(e.min) <= ls[k])
      && Nanos(e.max) in ls && (forall k :: 0 <= k < |ls| ==> ls[k] <= Nanos(e.max))
  }

  lemma OneMoreLatency(e: Extremes, ls: seq<int>, t: Time)
    requires ExtremesOf(e, ls) && WellFormed(t)
    requires forall k :: 0 <= k < |ls| ==> ls[k] >= 0
    ensures ExtremesOf(Extremes(t, Smaller(t, e.min), Larger(t, e.max)), ls + [Nanos(t)])
  {
    var ls' := ls + [Nanos(t)];
    assert ls'[|ls|] == Nanos(t);
    if ls == [] {
      AnythingIsBelowNoMinimum(t);
      KeyOrdersNanos(Time(0, 0), t);
      assert Nanos(Larger(t, e.max)) == Nanos(t);
    } else {
      KeyOrdersNanos(t, e.min);
      KeyOrdersNanos(e.max, t);
      assert forall k :: 0 <= k < |ls| ==> ls'[k] == ls[k];
      var i :| 0 <= i < |ls| && ls[i] == Nanos(e.min);
      var j :| 0 <= j < |ls| && ls[j] == Nanos(e.max);
      assert ls'[i] == Nanos(e.min) && ls'[j] == Nanos(e.max);
    }
    hide Key;
  }

  /** The latency registers show the true extremes over all accepted test frames. */
  lemma {:induction false} LatenciesAreExtremes(base: seq<Shifted>, frames: seq<seq<Octet>>, tags: seq<Tag>)
    requires |base| >= 4 && |frames| == |tags| && SaneStamps(base, frames, tags)
    ensures ExtremesOf(Latencies(base, frames, tags), TrueLatencies(base, frames, tags))
    ensures forall k :: 0 <= k < |TrueLatencies(base, frames, tags)| ==> TrueLatencies(base, frames, tags)[k] >= 0
    decreases |frames|
  {
    hide Timed;
    hide ReportOn;
    hide ExtremesOf;
    hide Latency;
    if frames != [] {
      var n := |frames| - 1;
      LatenciesAreExtremes(base, frames[..n], tags[..n]);
      var e, ls := Latencies(base, frames[..n], tags[..n]), TrueLatencies(base, frames[..n], tags[..n]);
      if Timed(base, frames) {
        var t := LatencyOf(base, frames, tags);
        LatencyIsDifference(tags[n].stamp, ReportOn(base, frames).sent);
        OneMoreLatency(e, ls, t);
      } else {
        assert TrueLatencies(base, frames, tags) == ls;
      }
    } else {
      NoLatencies();
    }
  }

  lemma NoLatencies()
    ensures ExtremesOf(Extremes(Time(0, 1), NO_MINIMUM, Time(0, 0)), [])
  {
  }

  /** The last accepted test frame that was not frozen. */
  ghost function LastShown(base: seq<Shifted>, frames: seq<seq<Octet>>, tags: seq<Tag>): (u: int)
    requires |base| >= 4 && |frames| == |tags|
    ensures -1 <= u < |frames|
  {
    if frames == [] then -1
    else
      var n := |frames| - 1;
      if Timed(base, frames) && !tags[n].frozen then n else LastShown(base, frames[..n], tags[..n])
  }

  /** The published copies show the extremes over the frames up to the last unfrozen test frame. */
  lemma {:induction false} PublishedLatenciesArePrefix(base: seq<Shifted>, frames: seq<seq<Octet>>, tags: seq<Tag>)
    requires |base| >= 4 && |frames| == |tags|
    ensures var u := LastShown(base, frames, tags);
      PublishedLatencies(base, frames, tags) ==
        if u < 0 then Extremes(Time(0, 2), NO_MINIMUM, Time(0, 0))
        else Latencies(base, frames[..u + 1], tags[..u + 1])
    decreases |frames|
  {
    hide Timed;
    hide ReportOn;
    hide Latency;
    if frames != [] {
      var n := |frames| - 1;
      if Timed(base, frames) && !tags[n].frozen {
        assert frames[..n + 1] == frames && tags[..n + 1] == tags;
      } else {
        PublishedLatenciesArePrefix(base, frames[..n], tags[..n]);
        var u := LastShown(base, frames, tags);
        if u >= 0 {
          assert frames[..n][..u + 1] == frames[..u + 1] && tags[..n][..u + 1] == tags[..u + 1];
        }
      }
    }
  }

  /** What the latency registers show in every reachable state, once the pipeline has
    caught up, which takes one cycle after a frame is accounted for. */
  lemma {:induction false} LatencyRegistersShowExtremes(r: Receiver, base: seq<Shifted>, l: Log)
    requires ReceiverInv(r, base, l) && LogInv(l) && |base| >= 4
    requires !r.ana.latency.update
    requires var n := AccountedCount(l); SaneStamps(base, l.wire.done[..n], l.tags[..n])
    ensures
      var n, a := AccountedCount(l), r.ana.latency;
      var frames, tags := l.wire.done[..n], l.tags[..n];
      var u := LastShown(base, frames, tags);
      && ExtremesOf(Extremes(a.last, a.min, a.max), TrueLatencies(base, frames, tags))
      && (u >= 0 ==>
            && ExtremesOf(Extremes(a.lastReg, a.minReg, a.maxReg), TrueLatencies(base, frames[..u + 1], tags[..u + 1]))
            && TrueLatencies(base, frames[..u + 1], tags[..u + 1]) != [])
  {
    hide CheckInv;
    hide ParserInv;
    hide FrameInv;
    hide CountInv;
    hide BufferInv;
    hide Timed;
    hide ReportOn;
    hide ExtremesOf;
    hide Latency;
    var n := AccountedCount(l);
    var frames, tags := l.wire.done[..n], l.tags[..n];
    var u := LastShown(base, frames, tags);
    LatenciesAreExtremes(base, frames, tags);
    PublishedLatenciesArePrefix(base, frames, tags);
    if u >= 0 {
      SaneStampsPrefix(base, frames, tags, u + 1);
      LatenciesAreExtremes(base, frames[..u + 1], tags[..u + 1]);
      LastShownIsTimed(base, frames, tags);
    }
  }

  lemma {:induction false} SaneStampsPrefix(base: seq<Shifted>, frames: seq<seq<Octet>>, tags: seq<Tag>, n: nat)
    requires |base| >= 4 && |frames| == |tags| && n <= |frames| && SaneStamps(base, frames, tags)
    ensures SaneStamps(base, frames[..n], tags[..n])
    decreases |frames|
  {
    hide Timed;
    hide ReportOn;
    if n < |frames| {
      var m := |frames| - 1;
      SaneStampsPrefix(base, frames[..m], tags[..m], n);
      assert frames[..m][..n] == frames[..n] && tags[..m][..n] == tags[..n];
    } else {
      assert frames[..n] == frames && tags[..n] == tags;
    }
  }

  lemma {:induction false} LastShownIsTimed(base: seq<Shifted>, frames: seq<seq<Octet>>, tags: seq<Tag>)
    requires |base| >= 4 && |frames| == |tags| && LastShown(base, frames, tags) >= 0
    ensures var u := LastShown(base, frames, tags);
      Timed(base, frames[..u + 1]) && TrueLatencies(base, frames[..u + 1], tags[..u + 1]) != []
    decreases |frames|
  {
    hide Timed;
    hide ReportOn;
    var n, u := |frames| - 1, LastShown(base, frames, tags);
    if u == n {
      assert frames[..n + 1] == frames && tags[..n + 1] == tags;
    } else {
      LastShownIsTimed(base, frames[..n], tags[..n]);
      assert frames[..n][..u + 1] == frames[..u + 1] && tags[..n][..u + 1] == tags[..u + 1];
    }
  }
}
