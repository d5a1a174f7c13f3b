/** Freezing the statistics, and the captured frame. */
module FreezeCapture {
  import opened Arithmetic
  import opened Octets
  import opened Gmii
  import opened BramIo
  import opened CrcCheck
  import opened TestframeParser
  import opened TrafficAnalyzer
  import opened Receiver
  import opened ReceiverRuns

  // ---- one frame, one snapshot ----

  lemma {:induction false} PublishedIsLastUnfrozen(base: seq<Shifted>, frames: seq<seq<Octet>>, tags: seq<Tag>)
    requires |base| >= 4 && |frames| == |tags|
    ensures var u := LastUnfrozen(tags);
      Published(base, frames, tags) ==
        if u < 0 then Snapshot(ZERO, Time(0, 0), 0)
        else Snapshot(Tally(base, frames[..u + 1], tags[..u + 1]).counters, tags[u].stamp, |frames[u]| % W32)
    decreases |frames|
  {
    hide ReportOn;
    hide Account;
    hide Data;
    if frames != [] {
      var n := |frames| - 1;
      if tags[n].frozen {
        PublishedIsLastUnfrozen(base, frames[..n], tags[..n]);
        var u := LastUnfrozen(tags);
        if u >= 0 {
          assert frames[..n][..u + 1] == frames[..u + 1] && tags[..n][..u + 1] == tags[..u + 1];
        }
      } else {
        assert frames[..n + 1] == frames && tags[..n + 1] == tags;
      }
    }
  }

  // ---- while the statistics are frozen ----

  ghost predicate Frozen(ins: seq<Input>) {
    forall k :: 0 <= k < |ins| ==> ins[k].freeze
  }

  /** Frames that begin while the statistics are frozen are frozen: none is captured. */
  lemma {:induction false} NothingIsCaptured(l: Log, ins: seq<Input>)
    requires LogInv(l) && l.freeze && !Capturing(l) && Frozen(ins)
    ensures var l' := LogRun(l, ins);
      && LogInv(l') && l'.freeze && !Capturing(l')
      && l.wire.done <= l'.wire.done && l.tags <= l'.tags
      && (forall k :: |l.tags| <= k < |l'.tags| ==> l'.tags[k].frozen)
  {
    if ins != [] {
      NothingIsCaptured(l, ins[..|ins| - 1]);
    }
  }

  lemma {:induction false} FrozenFramesAreSkipped(base: seq<Shifted>, frames: seq<seq<Octet>>, tags: seq<Tag>, n: nat)
    requires |base| >= 4 && |frames| == |tags| && n <= |frames|
    requires forall k :: n <= k < |tags| ==> tags[k].frozen
    ensures Published(base, frames, tags) == Published(base, frames[..n], tags[..n])
    decreases |frames|
  {
    hide ReportOn;
    hide Account;
    hide Data;
    if n < |frames| {
      var m := |frames| - 1;
      FrozenFramesAreSkipped(base, frames[..m], tags[..m], n);
      assert frames[..m][..n] == frames[..n] && tags[..m][..n] == tags[..n];
    } else {
      assert frames[..n] == frames && tags[..n] == tags;
    }
  }

  ghost function PublishedBy(base: seq<Shifted>, l: Log): Snapshot
    requires LogInv(l) && |base| >= 4
  {
    Published(base, l.wire.done[..AccountedCount(l)], l.tags[..AccountedCount(l)])
  }

  /** Once the statistics are frozen and no unfrozen frame is in flight, whatever arrives
    on the line changes neither the published registers nor the buffer, until the
    statistics are released. */
  lemma {:induction false} FrozenReadoutIsStable(r: Receiver, base: seq<Shifted>, l: Log, ins: seq<Input>)
    requires ReceiverInv(r, base, l) && l.freeze && !Capturing(l) && Running(ins) && Frozen(ins)
    ensures ReceiverRun(r, ins).ana.published == r.ana.published
    ensures ReceiverRun(r, ins).ana.mem == r.ana.mem
  {
    ReceiverRunInv(r, base, l, ins);
    NothingIsCaptured(l, ins);
    var l' := LogRun(l, ins);
    BufferIsStable(r, base, l, ins);
    BaseIsLong(r, base, l);
    PublishedIs(r, base, l);
    PublishedIs(ReceiverRun(r, ins), base, l');
    hide ReceiverInv;
    SamePublished(base, l, l');
  }

  lemma PublishedIs(r: Receiver, base: seq<Shifted>, l: Log)
    requires ReceiverInv(r, base, l) && LogInv(l) && |base| >= 4
    ensures r.ana.published == PublishedBy(base, l)
  {
    hide CheckInv;
    hide ParserInv;
    hide FrameInv;
    hide BufferInv;
    hide LatencyLogInv;
  }

  lemma SamePublished(base: seq<Shifted>, l: Log, l': Log)
    requires LogInv(l) && LogInv(l') && |base| >= 4 && !Capturing(l) && !Capturing(l')
    requires l.wire.done <= l'.wire.done && l.tags <= l'.tags
    requires forall k :: |l.tags| <= k < |l'.tags| ==> l'.tags[k].frozen
    ensures PublishedBy(base, l) == PublishedBy(base, l')
  {
    AllPublished(base, l);
    AllPublished(base, l');
    var n := |l.tags|;
    FrozenFramesAreSkipped(base, l'.wire.done, l'.tags, n);
    assert l'.wire.done[..n] == l.wire.done && l'.tags[..n] == l.tags;
  }

  /** With no unfrozen frame in flight, accounting for the last one makes no difference. */
  lemma {:induction false} AllPublished(base: seq<Shifted>, l: Log)
    requires LogInv(l) && |base| >= 4 && !Capturing(l)
    ensures PublishedBy(base, l) == Published(base, l.wire.done, l.tags)
  {
    FrozenFramesAreSkipped(base, l.wire.done, l.tags, AccountedCount(l));
  }

  /** The capture as the processor finds it describes frame u of the log: the buffer is as its
    octets have left it, the registers show its size, its arrival time and the statistics
    up to it. */
  ghost predicate CaptureOf(a: AnalyzerRegs, base: seq<Shifted>, l: Log, u: nat)
    requires LogInv(l) && |base| >= 4 && u < |l.wire.done|
  {
    var f := l.wire.done[u];
    && Captured(a.mem, f, |f|)
    && a.published.frameSize == |f| % W32
    && a.published.timestamp == l.tags[u].stamp
    && a.published.counters == Tally(base, l.wire.done[..u + 1], l.tags[..u + 1]).counters
  }

  lemma BufferIsOfLast(r: Receiver, base: seq<Shifted>, l: Log)
    requires ReceiverInv(r, base, l) && LogInv(l) && !Capturing(l) && LastUnfrozen(l.tags) >= 0
    ensures var f := l.wire.done[LastUnfrozen(l.tags)]; Captured(r.ana.mem, f, |f|)
  {
    hide CheckInv;
    hide ParserInv;
    hide LatencyLogInv;
    hide FrameInv;
    hide CountInv;
    hide Placed;
    hide Captured;
    hide Capturing;
    hide LastUnfrozen;
  }

  lemma {:induction false} CaptureIsOfLast(r: Receiver, base: seq<Shifted>, l: Log)
    requires |base| >= 4 && LogInv(l) && !Capturing(l) && LastUnfrozen(l.tags) >= 0 && ReceiverInv(r, base, l)
    ensures CaptureOf(r.ana, base, l, LastUnfrozen(l.tags))
  {
    hide ReceiverInv;
    hide LastUnfrozen;
    hide Capturing;
    hide Published;
    hide PublishedBy;
    hide Tally;
    hide Captured;
    BufferIsOfLast(r, base, l);
    PublishedIs(r, base, l);
    AllPublished(base, l);
    PublishedIsLastUnfrozen(base, l.wire.done, l.tags);
  }

  /** Whenever no unfrozen frame is in flight, the whole capture is about one frame, the
    last one that was not frozen. */
  lemma {:induction false} CaptureIsConsistent(r: Receiver, base: seq<Shifted>, l: Log)
    requires ReceiverInv(r, base, l) && !Capturing(l) && LastUnfrozen(l.tags) >= 0
    ensures |base| >= 4 && CaptureOf(r.ana, base, l, LastUnfrozen(l.tags))
  {
    BaseIsLong(r, base, l);
    CaptureIsOfLast(r, base, l);
    hide CaptureOf;
    hide Capturing;
    hide LastUnfrozen;
  }

  lemma {:induction false} BufferIsStable(r: Receiver, base: seq<Shifted>, l: Log, ins: seq<Input>)
    requires ReceiverInv(r, base, l) && l.freeze && !Capturing(l) && Running(ins) && Frozen(ins)
    ensures ReceiverRun(r, ins).ana.mem == r.ana.mem
  {
    if ins != [] {
      var front := ins[..|ins| - 1];
      BufferIsStable(r, base, l, front);
      ReceiverRunInv(r, base, l, front);
      NothingIsCaptured(l, front);
      NotWriting(ReceiverRun(r, front), base, LogRun(l, front), ins[|ins| - 1]);
      hide ReceiverInv;
      hide ReceiverStep;
    }
  }

  lemma NotWriting(r: Receiver, base: seq<Shifted>, l: Log, i: Input)
    requires ReceiverInv(r, base, l) && LogInv(l) && !Capturing(l)
    ensures ReceiverStep(r, i).ana.mem == r.ana.mem
  {
    hide CheckInv;
    hide ParserInv;
    hide CountInv;
    hide LatencyLogInv;
    hide CheckStep;
    hide ParseStep;
    hide LatencyStep;
    hide Account;
    hide Add64;
  }

  /** What the published registers may have become since the statistics were frozen. */
  ghost predicate ChangedAtMostOnce(base: seq<Shifted>, l: Log, l': Log)
    requires LogInv(l) && LogInv(l') && |base| >= 4
  {
    var n := AccountedCount(l);
    if AccountedCount(l') == n || !Capturing(l) then
      PublishedBy(base, l') == PublishedBy(base, l)
    else
      && n < |l'.wire.done| && !Capturing(l')
      && PublishedBy(base, l') == Published(base, l'.wire.done[..n + 1], l'.tags[..n + 1])
  }

  lemma {:induction false} FrozenLogChangesAtMostOnce(base: seq<Shifted>, l: Log, ins: seq<Input>)
    requires LogInv(l) && |base| >= 4 && l.freeze && Frozen(ins)
    ensures LogInv(LogRun(l, ins)) && ChangedAtMostOnce(base, l, LogRun(l, ins))
  {
    hide LogStep;
    hide ReportOn;
    hide Account;
    var l' := LogRun(l, ins);
    if !Capturing(l) {
      NothingIsCaptured(l, ins);
      SamePublished(base, l, l');
    } else {
      OneFrameInFlight(l, ins);
      hide Capturing;
      if AccountedCount(l') > AccountedCount(l) {
        PublishedAfterFlight(base, l', AccountedCount(l));
      }
    }
  }

  lemma {:induction false} PublishedAfterFlight(base: seq<Shifted>, l: Log, n: nat)
    requires LogInv(l) && |base| >= 4 && n < AccountedCount(l)
    requires forall k :: n < k < |l.tags| ==> l.tags[k].frozen
    ensures PublishedBy(base, l) == Published(base, l.wire.done[..n + 1], l.tags[..n + 1])
  {
    hide ReportOn;
    hide Account;
    var m := AccountedCount(l);
    FrozenFramesAreSkipped(base, l.wire.done[..m], l.tags[..m], n + 1);
    assert l.wire.done[..m][..n + 1] == l.wire.done[..n + 1] && l.tags[..m][..n + 1] == l.tags[..n + 1];
  }

  /** From the moment the statistics are frozen the published registers change at most
    once more, when the frame in flight at that moment is accounted for; from then on no
    unfrozen frame is in flight. */
  lemma {:induction false} FreezeChangesAtMostOnce(r: Receiver, base: seq<Shifted>, l: Log, ins: seq<Input>)
    requires ReceiverInv(r, base, l) && l.freeze && Running(ins) && Frozen(ins)
    ensures LogInv(l) && LogInv(LogRun(l, ins)) && |base| >= 4
    ensures r.ana.published == PublishedBy(base, l)
    ensures ReceiverRun(r, ins).ana.published == PublishedBy(base, LogRun(l, ins))
    ensures ChangedAtMostOnce(base, l, LogRun(l, ins))
  {
    ReceiverRunInv(r, base, l, ins);
    BaseIsLong(r, base, l);
    PublishedIs(r, base, l);
    PublishedIs(ReceiverRun(r, ins), base, LogRun(l, ins));
    FrozenLogChangesAtMostOnce(base, l, ins);
    hide ReceiverInv;
    hide ChangedAtMostOnce;
  }

  /** The frame in flight when freezing begins is the only one that may still be captured. */
  lemma {:induction false} OneFrameInFlight(l: Log, ins: seq<Input>)
    requires LogInv(l) && l.freeze && Capturing(l) && Frozen(ins)
    ensures var l', n := LogRun(l, ins), AccountedCount(l);
      && LogInv(l') && l'.freeze && n <= AccountedCount(l')
      && l'.wire.done[..n] == l.wire.done[..n] && l'.tags[..n] == l.tags[..n]
      && (forall k :: n < k < |l'.tags| ==> l'.tags[k].frozen)
      && (AccountedCount(l') > n ==> !Capturing(l'))
      && (AccountedCount(l') == n ==> Capturing(l') && |l'.wire.done| == n + (if l'.wire.ended then 1 else 0))
  {
    if ins != [] {
      var front := ins[..|ins| - 1];
      OneFrameInFlight(l, front);
      var k, n := LogRun(l, front), AccountedCount(l);
      var l' := LogRun(l, ins);
      assert l' == LogStep(k, ins[|ins| - 1]);
      assert l'.wire.done[..n] == k.wire.done[..n] && l'.tags[..n] == k.tags[..n];
    }
  }

  // ---- everything the processor can read ----

  predicate SameReadable(a: AnalyzerRegs, b: AnalyzerRegs) {
    && a.published == b.published && a.mem == b.mem
    && a.octetsIdleReg == b.octetsIdleReg && a.octetsTotalReg == b.octetsTotalReg
    && a.latency.lastReg == b.latency.lastReg
    && a.latency.minReg == b.latency.minReg && a.latency.maxReg == b.latency.maxReg
  }

  /** No latency is on its way into its copies, or none that would change them. */
  predicate LatencyShown(r: LatencyRegs) {
    r.updateRegs ==> r.lastReg == r.last && r.maxReg == Larger(r.last, r.max) && r.minReg == Smaller(r.last, r.min)
  }

  /** A latency reaches its copies before the next one can overtake it. */
  lemma NotOvertaken(r: Receiver, base: seq<Shifted>, l: Log)
    requires ReceiverInv(r, base, l) && LogInv(l)
    ensures r.ana.run && (r.ana.latency.updateRegs ==> !r.ana.frameComplete)
  {
    hide CheckInv;
    hide ParserInv;
    hide CountInv;
    hide BufferInv;
    hide Latencies;
    hide PublishedLatencies;
    hide Timed;
  }

  /** In such a state the copies of the latency and of the cycle counters keep still as well. */
  lemma CopiesKeepStill(r: Receiver, base: seq<Shifted>, l: Log, i: Input)
    requires ReceiverInv(r, base, l) && LogInv(l) && l.freeze && !Capturing(l) && LatencyShown(r.ana.latency)
    ensures var a, b := r.ana, ReceiverStep(r, i).ana;
      && !b.latency.updateRegs && b.octetsIdleReg == a.octetsIdleReg && b.octetsTotalReg == a.octetsTotalReg
      && b.latency.lastReg == a.latency.lastReg && b.latency.minReg == a.latency.minReg
      && b.latency.maxReg == a.latency.maxReg
  {
    NotOvertaken(r, base, l);
    hide CheckInv;
    hide ParserInv;
    hide CountInv;
    hide BufferInv;
    hide LatencyLogInv;
    hide CheckStep;
    hide ParseStep;
    hide Account;
    hide Add64;
    hide Larger;
    hide Smaller;
    hide Latency;
    hide Written;
    hide WithLane;
  }

  /** While the statistics are frozen, no unfrozen frame is in flight and no latency is on its
    way, nothing that the processor can read changes, whatever arrives. */
  lemma {:induction false} NothingReadableChanges(r: Receiver, base: seq<Shifted>, l: Log, ins: seq<Input>)
    requires ReceiverInv(r, base, l) && LogInv(l) && l.freeze && !Capturing(l) && LatencyShown(r.ana.latency)
    requires Running(ins) && Frozen(ins)
    ensures SameReadable(ReceiverRun(r, ins).ana, r.ana) && LatencyShown(ReceiverRun(r, ins).ana.latency)
  {
    hide ReceiverInv;
    hide ReceiverStep;
    hide LogStep;
    hide LogInv;
    hide Capturing;
    FrozenReadoutIsStable(r, base, l, ins);
    if ins != [] {
      var front := ins[..|ins| - 1];
      NothingReadableChanges(r, base, l, front);
      ReceiverRunInv(r, base, l, front);
      NothingIsCaptured(l, front);
      CopiesKeepStill(ReceiverRun(r, front), base, LogRun(l, front), ins[|ins| - 1]);
    }
  }
}
