/** What the analyzer records of the last sequence error. */
module LastError {
  import opened Arithmetic
  import opened Octets
  import opened Gmii
  import opened CrcCheck
  import opened TestframeParser
  import opened TrafficAnalyzer
  import opened Receiver
  import opened ReceiverRuns
  import opened FreezeCapture

  /** The times at which the accepted test frames arrived, in order. */
  ghost function TestTimes(base: seq<Shifted>, frames: seq<seq<Octet>>, tags: seq<Tag>): (ts: seq<Time>)
    requires |base| >= 4 && |frames| == |tags|
    ensures |ts| == |TestNumbers(base, frames)|
  {
    if frames == [] then []
    else
      var n := |frames| - 1;
      TestTimes(base, frames[..n], tags[..n]) + if Timed(base, frames) then [tags[n].stamp] else []
  }

  /** Number i is the 32-bit one after the number before; the first is 0. */
  predicate Follows(ns: seq<nat>, i: nat)
    requires i < |ns|
  {
    ns[i] == if i == 0 then 0 else (ns[i - 1] + 1) % W32
  }

  /** The last number that does not follow the one before, -1 if all do. */
  function LastOutOfOrder(ns: seq<nat>): (i: int)
    ensures -1 <= i < |ns|
    ensures i >= 0 ==> !Follows(ns, i)
    ensures forall j :: i < j < |ns| ==> Follows(ns, j)
  {
    if ns == [] then -1
    else
      var n := |ns| - 1;
      assert forall j :: 0 <= j < n ==> (Follows(ns, j) <==> Follows(ns[..n], j));
      if Follows(ns, n) then LastOutOfOrder(ns[..n]) else n
  }

  /** The last of the numbers ns, received at the times ts, that does not follow the one before
    is recorded, with the number that was expected and the time at which its frame arrived. */
  ghost predicate NamesLastError(c: Counters, ns: seq<nat>, ts: seq<Time>)
    requires |ns| == |ts|
  {
    var i := LastOutOfOrder(ns);
    if i < 0 then c.errorReceived == 0 && c.errorExpected == 0 && c.errorTime == Time(0, 0)
    else
      && c.errorReceived == ns[i] && c.errorTime == ts[i]
      && c.errorExpected == if i == 0 then 0 else (ns[i - 1] + 1) % W32
  }

  lemma {:induction false} NextOutOfOrder(ns: seq<nat>, n: nat)
    ensures LastOutOfOrder(ns + [n]) == if n == ExpectedAfter(ns) then LastOutOfOrder(ns) else |ns|
  {
    var all := ns + [n];
    assert all[..|ns|] == ns;
    assert Follows(all, |ns|) <==> n == ExpectedAfter(ns);
  }

  lemma {:induction false} NextNamed(c: Counters, c': Counters, ns: seq<nat>, ts: seq<Time>, n: nat, t: Time)
    requires |ns| == |ts| && NamesLastError(c, ns, ts)
    requires if n == ExpectedAfter(ns) then
               c'.errorReceived == c.errorReceived && c'.errorExpected == c.errorExpected && c'.errorTime == c.errorTime
             else c'.errorReceived == n && c'.errorExpected == ExpectedAfter(ns) && c'.errorTime == t
    ensures NamesLastError(c', ns + [n], ts + [t])
  {
    NextOutOfOrder(ns, n);
    hide LastOutOfOrder;
  }

  lemma AccountError(b: Book, q: Report, frameSize: nat, l2FrameSize: nat, stamp: Time)
    requires q.crcOk ==> q.preambleOk
    ensures
      var c, c' := b.counters, Account(b, q, frameSize, l2FrameSize, stamp).counters;
      if q.crcOk && q.testframe && q.sequenceNum != b.expected then
        c'.errorReceived == q.sequenceNum && c'.errorExpected == b.expected && c'.errorTime == stamp
      else
        c'.errorReceived == c.errorReceived && c'.errorExpected == c.errorExpected && c'.errorTime == c.errorTime
  {
    hide Add64;
  }

  /** After any frames: of the accepted test frames, the last whose number is not the one after
    the number before is the one that is recorded. */
  lemma {:induction false} LastErrorIsRecorded(base: seq<Shifted>, frames: seq<seq<Octet>>, tags: seq<Tag>)
    requires |base| >= 4 && |frames| == |tags|
    ensures NamesLastError(Tally(base, frames, tags).counters, TestNumbers(base, frames), TestTimes(base, frames, tags))
    decreases |frames|
  {
    hide Account;
    hide Timed;
    hide ReportOn;
    hide ExpectedAfter;
    hide NamesLastError;
    if frames == [] {
      NothingRecorded();
    } else {
      var n := |frames| - 1;
      var b, q := Tally(base, frames[..n], tags[..n]), ReportOn(base, frames);
      LastErrorIsRecorded(base, frames[..n], tags[..n]);
      TallyCounts(base, frames[..n], tags[..n], Good);
      TestNumbersLast(base, frames);
      TimedIsReported(base, frames);
      AccountError(b, q, |frames[n]| % W32, |Data(frames[n])| % W32, tags[n].stamp);
      if q.crcOk && q.testframe {
        NextNamed(b.counters, Tally(base, frames, tags).counters, TestNumbers(base, frames[..n]),
                  TestTimes(base, frames[..n], tags[..n]), q.sequenceNum, tags[n].stamp);
      } else {
        assert TestTimes(base, frames, tags) == TestTimes(base, frames[..n], tags[..n]);
        SameNamed(b.counters, Tally(base, frames, tags).counters, TestNumbers(base, frames[..n]),
                  TestTimes(base, frames[..n], tags[..n]));
      }
    }
  }

  lemma {:induction false} NothingRecorded()
    ensures NamesLastError(ZERO, [], [])
  {
  }

  lemma SameNamed(c: Counters, c': Counters, ns: seq<nat>, ts: seq<Time>)
    requires |ns| == |ts| && NamesLastError(c, ns, ts)
    requires c'.errorReceived == c.errorReceived && c'.errorExpected == c.errorExpected && c'.errorTime == c.errorTime
    ensures NamesLastError(c', ns, ts)
  {
    hide LastOutOfOrder;
  }

  lemma TimedIsReported(base: seq<Shifted>, frames: seq<seq<Octet>>)
    requires |base| >= 4 && frames != []
    ensures var q := ReportOn(base, frames); Timed(base, frames) <==> q.crcOk && q.testframe
  {
  }

  /** In every reachable state, the registers name the last error among the frames that have
    been accounted for, and the copies that among the frames up to the last that was not frozen. */
  lemma {:induction false} LastErrorIsShown(r: Receiver, base: seq<Shifted>, l: Log)
    requires ReceiverInv(r, base, l) && LogInv(l)
    ensures |base| >= 4
    ensures var n := AccountedCount(l);
      var frames, tags := l.wire.done[..n], l.tags[..n];
      var u := LastUnfrozen(tags) + 1;
      && NamesLastError(r.ana.counters, TestNumbers(base, frames), TestTimes(base, frames, tags))
      && NamesLastError(r.ana.published.counters, TestNumbers(base, frames[..u]),
                        TestTimes(base, frames[..u], tags[..u]))
  {
    BaseIsLong(r, base, l);
    var n := AccountedCount(l);
    var frames, tags := l.wire.done[..n], l.tags[..n];
    var u := LastUnfrozen(tags) + 1;
    StatisticsAre(r, base, l);
    hide ReceiverInv;
    hide NamesLastError;
    hide Tally;
    hide LastUnfrozen;
    LastErrorIsRecorded(base, frames, tags);
    LastErrorIsRecorded(base, frames[..u], tags[..u]);
    PublishedIsLastUnfrozen(base, frames, tags);
    if u == 0 {
      NothingRecorded();
    }
  }

  lemma {:induction false} StatisticsAre(r: Receiver, base: seq<Shifted>, l: Log)
    requires ReceiverInv(r, base, l) && LogInv(l) && |base| >= 4
    ensures var n := AccountedCount(l);
      && r.ana.counters == Tally(base, l.wire.done[..n], l.tags[..n]).counters
      && r.ana.published == Published(base, l.wire.done[..n], l.tags[..n])
  {
    hide CheckInv;
    hide ParserInv;
    hide FrameInv;
    hide BufferInv;
    hide LatencyLogInv;
    hide Tally;
    hide Published;
  }
}
