/** The frames of the generator, as the analyzer sees them. */
module Testframes {
  import opened Arithmetic
  import opened Octets
  import opened FrameCheck
  import opened Gmii
  import opened BramIo
  import opened CrcCheck
  import opened TestframeParser
  import opened TrafficAnalyzer
  import opened Receiver
  import opened ReceiverRuns
  import opened LatencyExtremes
  import opened TrafficGenerator
  import opened GeneratorStream
  import opened FilteredStream

  /** The frame buffer holds a template for test frames: the preamble, and 00 07 at
    octets 36 and 37 after it. */
  ghost predicate TestTemplate(c: Config, mem: Memory) {
    && Usable(c) && c.dynamic && Size(c) >= 46
    && (forall j :: 0 <= j < 7 ==> TemplateOctet(mem, mem[0], j) == 0x55) && TemplateOctet(mem, mem[0], 7) == 0xD5
    && TemplateOctet(mem, mem[0], 44) == 0 && TemplateOctet(mem, mem[0], 45) == 7
  }

  lemma {:induction false} FrameParts(c: Config, mem: Memory, k: nat, stamp: Time)
    requires Usable(c) && c.dynamic && Size(c) > 8
    ensures var f, n := Frame(c, mem, mem[0], k, stamp), Size(c);
      && (forall j :: 0 <= j < n ==> f[j] == TemplateOctet(mem, mem[0], j))
      && f[n..n + 8] == BigEndian(k % W64, 8)
      && f[n + 8..n + 14] == BigEndian(stamp.sec, 6)
      && f[n + 14..n + 18] == BigEndian(stamp.nsec, 4)
      && f[n + 18..] == Fcs(Crc(f[8..n + 18]))
  {
    hide TemplateOctet;
    hide Crc;
    hide Fcs;
    var t, b := Template(c, mem, mem[0]), Body(c, mem, mem[0], k, stamp);
    var f, n := Frame(c, mem, mem[0], k, stamp), Size(c);
    assert f[8..n + 18] == b[8..];
    assert b == t + BigEndian(k % W64, 8) + BigEndian(stamp.sec, 6) + BigEndian(stamp.nsec, 4);
  }

  lemma PreambleOfTemplate(f: seq<Octet>)
    requires |f| >= 8 && (forall j :: 0 <= j < 7 ==> f[j] == 0x55) && f[7] == 0xD5
    ensures DataStart(f) == 8 && GoodPreamble(f) && Data(f) == f[8..]
  {
    assert Preamble(f, 7) && f[6] == 0x55;
  }

  lemma {:induction false} FieldsOf(f: seq<Octet>, n: nat, k: nat, stamp: Time)
    requires |f| == n + 22 && n >= 8 && WellFormed(stamp)
    requires f[n..n + 8] == BigEndian(k % W64, 8)
    requires f[n + 8..n + 14] == BigEndian(stamp.sec, 6) && f[n + 14..n + 18] == BigEndian(stamp.nsec, 4)
    ensures SequenceNumOf(f[8..]) == k % W64 && TimestampOf(f[8..]) == stamp
  {
    var m := f[8..];
    assert m[|m| - 22..|m| - 14] == f[n..n + 8];
    assert m[|m| - 14..|m| - 8] == f[n + 8..n + 14];
    assert m[|m| - 8..|m| - 4] == f[n + 14..n + 18];
    hide FromBigEndian, BigEndian, Power256;
    FieldWidths();
    BigEndianRoundTrip(k % W64, 8);
    BigEndianRoundTrip(stamp.sec, 6);
    BigEndianRoundTrip(stamp.nsec, 4);
  }

  ghost predicate IsTestframeOf(f: seq<Octet>, n: nat, k: nat, stamp: Time) {
    var m := Data(f);
    && GoodPreamble(f) && |m| == n + 14 && FcsValid(m) && IsTestframe(m)
    && SequenceNumOf(m) == k % W64 && TimestampOf(m) == stamp
  }

  lemma {:induction false} TestframeOf(f: seq<Octet>, n: nat, k: nat, stamp: Time)
    requires |f| == n + 22 && n >= 46 && WellFormed(stamp)
    requires (forall j :: 0 <= j < 7 ==> f[j] == 0x55) && f[7] == 0xD5 && f[44] == 0 && f[45] == 7
    requires f[n..n + 8] == BigEndian(k % W64, 8)
    requires f[n + 8..n + 14] == BigEndian(stamp.sec, 6) && f[n + 14..n + 18] == BigEndian(stamp.nsec, 4)
    requires f[n + 18..] == Fcs(Crc(f[8..n + 18]))
    ensures IsTestframeOf(f, n, k, stamp)
  {
    PreambleOfTemplate(f);
    hide Crc;
    hide Fcs;
    hide Data;
    hide GoodPreamble;
    hide SequenceNumOf;
    hide TimestampOf;
    FieldsOf(f, n, k, stamp);
    FcsAndMark(f, n);
    hide FcsValid;
    hide IsTestframe;
  }

  lemma FcsAndMark(f: seq<Octet>, n: nat)
    requires |f| == n + 22 && n >= 46 && f[44] == 0 && f[45] == 7 && f[n + 18..] == Fcs(Crc(f[8..n + 18]))
    ensures FcsValid(f[8..]) && IsTestframe(f[8..])
  {
    hide Crc;
    hide Fcs;
    var m := f[8..];
    assert m[..|m| - 4] == f[8..n + 18] && m[|m| - 4..] == f[n + 18..];
    assert MarkAt(m, 37);
  }

  /** Every frame made from a template for test frames has a good preamble and a valid
    frame check sequence, and the analyzer reads its number and its time from it. */
  lemma FrameIsTestframe(c: Config, mem: Memory, k: nat, stamp: Time)
    requires TestTemplate(c, mem) && WellFormed(stamp)
    ensures IsTestframeOf(Frame(c, mem, mem[0], k, stamp), Size(c), k, stamp)
  {
    FrameParts(c, mem, k, stamp);
    hide TemplateOctet;
    hide Frame;
    hide IsTestframeOf;
    hide Crc;
    hide Fcs;
    TestframeOf(Frame(c, mem, mem[0], k, stamp), Size(c), k, stamp);
  }

  /** The frames of the generator with the given numbers, each sent at the given time. */
  ghost predicate SentFrames(c: Config, mem: Memory, frames: seq<seq<Octet>>, stamps: seq<Time>, ks: seq<nat>) {
    && TestTemplate(c, mem) && |frames| == |stamps| == |ks|
    && forall i :: 0 <= i < |frames| ==>
      WellFormed(stamps[i]) && frames[i] == Frame(c, mem, mem[0], ks[i], stamps[i])
  }

  /** What the analyzer is told about the last of them. */
  lemma ReportOnTestframe(c: Config, mem: Memory, frames: seq<seq<Octet>>, stamps: seq<Time>, ks: seq<nat>,
                          base: seq<Shifted>)
    requires SentFrames(c, mem, frames, stamps, ks) && frames != [] && |base| >= 4
    ensures var n := |frames| - 1;
      && KindOf(base, frames) == Good && Timed(base, frames) && |Data(frames[n])| == Size(c) + 14
      && ReportOn(base, frames).sequenceNum == ks[n] % W64 && ReportOn(base, frames).sent == stamps[n]
  {
    var n := |frames| - 1;
    FrameIsTestframe(c, mem, ks[n], stamps[n]);
    hide TestTemplate;
    hide FcsValid;
    hide IsTestframe;
    hide Data;
    hide GoodPreamble;
    hide SequenceNumOf;
    hide TimestampOf;
    hide Frame;
    KindOfLongFrame(base, frames);
  }

  /** All of them are good, and nothing else is counted. */
  lemma {:induction false} TestframesAreGood(c: Config, mem: Memory, frames: seq<seq<Octet>>, stamps: seq<Time>,
                                             ks: seq<nat>, base: seq<Shifted>)
    requires SentFrames(c, mem, frames, stamps, ks) && |base| >= 4
    ensures FramesOfKind(base, frames, Good) == |frames|
    ensures OctetsOfKind(base, frames, Good) == |frames| * ((Size(c) + 14) % W32)
    ensures FramesOfKind(base, frames, BadCrc) == 0 && OctetsOfKind(base, frames, BadCrc) == 0
    ensures FramesOfKind(base, frames, BadPreamble) == 0 && OctetsOfKind(base, frames, BadPreamble) == 0
    decreases |frames|
  {
    hide TestTemplate;
    hide Timed;
    hide KindOf;
    hide Frame;
    hide Data;
    hide WellFormed;
    hide ReportOn;
    if frames != [] {
      var n, size := |frames| - 1, (Size(c) + 14) % W32;
      ReportOnTestframe(c, mem, frames, stamps, ks, base);
      TestframesAreGood(c, mem, frames[..n], stamps[..n], ks[..n], base);
      assert |frames| * size == n * size + size;
    }
  }

  // ---- their numbers ----

  /** The numbers as they are sent, with 64 bits. */
  function Wrapped(ks: seq<nat>): (ns: seq<nat>)
    ensures |ns| == |ks|
  {
    seq(|ks|, i requires 0 <= i < |ks| => ks[i] % W64)
  }

  lemma {:induction false} TestframesAreNumbered(c: Config, mem: Memory, frames: seq<seq<Octet>>, stamps: seq<Time>,
                                                 ks: seq<nat>, base: seq<Shifted>)
    requires SentFrames(c, mem, frames, stamps, ks) && |base| >= 4
    ensures TestNumbers(base, frames) == Wrapped(ks)
    decreases |frames|
  {
    hide TestTemplate;
    hide Timed;
    hide KindOf;
    hide Frame;
    hide Data;
    hide WellFormed;
    hide ReportOn;
    if frames != [] {
      var n := |frames| - 1;
      ReportOnTestframe(c, mem, frames, stamps, ks, base);
      TestframesAreNumbered(c, mem, frames[..n], stamps[..n], ks[..n], base);
      assert Wrapped(ks) == Wrapped(ks[..n]) + [ks[n] % W64];
    }
  }

  /** Frame k does not have the number that is expected after the last frame kept before it. */
  predicate Unexpected(c: Config, gap: nat, k: nat) {
    k % W64 != (LastKept(c, gap, k) + 1) % W32
  }

  /** The kept frames among the first n with an unexpected number. */
  function Interruptions(c: Config, gap: nat, n: nat): nat {
    if n == 0 then 0
    else Interruptions(c, gap, n - 1) + if Kept(c, gap, n - 1) && Unexpected(c, gap, n - 1) then 1 else 0
  }

  /** The numbers are sent with 64 bits and expected with 32: as long as the 64 bits last, a
    number is unexpected if and only if the frame before it is lost or it has more than 32 bits. */
  lemma {:induction false} UnexpectedAfterLoss(c: Config, gap: nat, k: nat)
    requires k < W64
    ensures Unexpected(c, gap, k) <==> (k > 0 && !Kept(c, gap, k - 1)) || k >= W32
  {
    hide Kept;
    var j := LastKept(c, gap, k);
    assert k > 0 ==> (j == k - 1 <==> Kept(c, gap, k - 1));
  }

  /** The sequence errors are the unexpected numbers among the frames kept. */
  lemma {:induction false} ErrorsAreInterruptions(c: Config, gap: nat, n: nat)
    ensures var ns := Wrapped(KeptNumbers(c, gap, n));
      && ExpectedAfter(ns) == (LastKept(c, gap, n) + 1) % W32
      && SequenceErrors(ns) == Interruptions(c, gap, n)
  {
    hide Kept;
    hide LastKept;
    hide KeptNumbers;
    hide Wrapped;
    hide SequenceErrors;
    hide ExpectedAfter;
    if n == 0 {
      NothingSent(c, gap);
    } else {
      ErrorsAreInterruptions(c, gap, n - 1);
      NextKept(c, gap, n - 1);
      NextLastKept(c, gap, n - 1);
      if Kept(c, gap, n - 1) {
        OneMoreSent(KeptNumbers(c, gap, n - 1), n - 1);
      }
    }
  }

  lemma ModuloOfModulo(k: nat)
    ensures (k % W64 + 1) % W32 == (k + 1) % W32
  {
    assert k + 1 == W32 * (k / W64 * W32) + (k % W64 + 1);
    ModuloShift(k % W64 + 1, k / W64 * W32, W32);
  }

  lemma {:induction false} NothingSent(c: Config, gap: nat)
    ensures LastKept(c, gap, 0) == -1
    ensures var ns := Wrapped(KeptNumbers(c, gap, 0));
      ExpectedAfter(ns) == 0 == SequenceErrors(ns)
  {
  }

  lemma OneMoreSent(ks: seq<nat>, k: nat)
    ensures SequenceErrors(Wrapped(ks + [k]))
         == SequenceErrors(Wrapped(ks)) + if k % W64 != ExpectedAfter(Wrapped(ks)) then 1 else 0
    ensures ExpectedAfter(Wrapped(ks + [k])) == (k + 1) % W32
  {
    assert Wrapped(ks + [k]) == Wrapped(ks) + [k % W64];
    hide Wrapped;
    hide SequenceErrors;
    hide ExpectedAfter;
    OneMoreNumber(Wrapped(ks), k % W64);
    ModuloOfModulo(k);
  }

  /** How many of the numbers 0 to n - 1 have more than 32 bits. */
  function LongNumbers(n: nat): nat {
    n / W64 * (W64 - W32) + if n % W64 > W32 then n % W64 - W32 else 0
  }

  lemma LowHalf(n: nat)
    ensures n % W64 == n % W32 <==> n % W64 < W32
  {
    assert n == W32 * (n / W64 * W32) + n % W64;
    ModuloShift(n % W64, n / W64 * W32, W32);
  }

  lemma OneMoreLong(n: nat)
    ensures LongNumbers(n + 1) == LongNumbers(n) + if n % W64 < W32 then 0 else 1
  {
    assert (n + 1) / W64 == if n % W64 == W64 - 1 then n / W64 + 1 else n / W64;
  }

  lemma {:induction false} NumberInOrder(c: Config, gap: nat, k: nat)
    requires forall i :: 0 <= i < k ==> Gap(c, i) >= gap
    ensures Kept(c, gap, k) && (Unexpected(c, gap, k) <==> k % W64 >= W32)
  {
    hide Gap;
    hide Kept;
    AllKept(c, gap, k);
    if k > 0 {
      AllKept(c, gap, k - 1);
    }
    assert LastKept(c, gap, k) == k - 1;
    LowHalf(k);
  }

  /** When nothing is lost, those are the errors: none among the first 2 to the power 32. */
  lemma {:induction false} NumbersInOrder(c: Config, gap: nat, n: nat)
    requires forall i :: 0 <= i < n - 1 ==> Gap(c, i) >= gap
    ensures Interruptions(c, gap, n) == LongNumbers(n)
  {
    hide Gap;
    hide Kept;
    hide Unexpected;
    hide LongNumbers;
    if n > 0 {
      NumbersInOrder(c, gap, n - 1);
      NumberInOrder(c, gap, n - 1);
      OneMoreLong(n - 1);
    } else {
      NoLongNumbers();
    }
  }

  lemma NoLongNumbers()
    ensures LongNumbers(0) == 0
  {
  }

  lemma {:induction false} LastOfEven(c: Config, gap: nat, g: nat, k: nat)
    requires forall i :: 0 <= i < k ==> Gap(c, i) == g
    requires g < gap <= 2 * g + FrameLength(c) && k >= 2 && k % 2 == 0
    ensures LastKept(c, gap, k) == k - 2
  {
    hide Gap;
    hide Kept;
    hide LastKept;
    hide FrameLength;
    EvenFramesAreKept(c, gap, g, k - 1);
    EvenFramesAreKept(c, gap, g, k - 2);
    NextLastKept(c, gap, k - 1);
    NextLastKept(c, gap, k - 2);
  }

  lemma {:induction false} NumberApart(c: Config, gap: nat, g: nat, k: nat)
    requires forall i :: 0 <= i < k ==> Gap(c, i) == g
    requires g < gap <= 2 * g + FrameLength(c)
    ensures Kept(c, gap, k) && Unexpected(c, gap, k) <==> k % 2 == 0 && k > 0
  {
    hide Gap;
    hide Kept;
    hide LastKept;
    hide FrameLength;
    EvenFramesAreKept(c, gap, g, k);
    if k == 0 {
      NothingSent(c, gap);
    } else if k % 2 == 0 {
      LastOfEven(c, gap, g, k);
      NotTheNumberBefore(k);
    }
  }

  lemma NotTheNumberBefore(k: nat)
    requires k > 0
    ensures k % W64 != (k - 1) % W32
  {
    LowHalf(k);
    Consecutive(k);
  }

  lemma Consecutive(k: nat)
    requires k > 0
    ensures k % W32 != (k - 1) % W32
  {
  }

  /** When every second frame is lost, every number but the first is an error. */
  lemma {:induction false} NumbersApart(c: Config, gap: nat, g: nat, n: nat)
    requires forall i :: 0 <= i < n ==> Gap(c, i) == g
    requires g < gap <= 2 * g + FrameLength(c)
    ensures Interruptions(c, gap, n) == if n == 0 then 0 else (n + 1) / 2 - 1
  {
    hide Gap;
    hide Kept;
    hide Unexpected;
    hide FrameLength;
    if n > 0 {
      NumbersApart(c, gap, g, n - 1);
      NumberApart(c, gap, g, n - 1);
    }
  }

  ghost predicate Delayed(tags: seq<Tag>, stamps: seq<Time>, t: Time) {
    && |tags| == |stamps|
    && forall k :: 0 <= k < |tags| ==> !tags[k].frozen && Latency(tags[k].stamp, stamps[k]) == t
  }

  /** Every frame is an accepted test frame, was not frozen, and has latency t. */
  ghost predicate AllTimed(base: seq<Shifted>, frames: seq<seq<Octet>>, tags: seq<Tag>, t: Time)
    requires |base| >= 4 && |frames| == |tags|
  {
    frames != [] ==>
      var n := |frames| - 1;
      && AllTimed(base, frames[..n], tags[..n], t)
      && Timed(base, frames) && LatencyOf(base, frames, tags) == t && !tags[n].frozen
  }

  lemma {:induction false} TestframesAreTimed(c: Config, mem: Memory, frames: seq<seq<Octet>>, stamps: seq<Time>,
                                              ks: seq<nat>, base: seq<Shifted>, tags: seq<Tag>, t: Time)
    requires SentFrames(c, mem, frames, stamps, ks) && |base| >= 4 && Delayed(tags, stamps, t)
    ensures AllTimed(base, frames, tags, t)
    decreases |frames|
  {
    hide LatencyOf;
    hide Timed;
    hide Frame;
    hide TestTemplate;
    hide WellFormed;
    hide Latency;
    if frames != [] {
      var n := |frames| - 1;
      LatencyOfTestframe(c, mem, frames, stamps, ks, base, tags, t);
      TestframesAreTimed(c, mem, frames[..n], stamps[..n], ks[..n], base, tags[..n], t);
    }
  }

  /** When all arrive with the same delay, that is the last latency, the least and the
    greatest. */
  lemma {:induction false} LatenciesAreEqual(base: seq<Shifted>, frames: seq<seq<Octet>>, tags: seq<Tag>, t: Time)
    requires |base| >= 4 && |frames| == |tags| && AllTimed(base, frames, tags, t)
    requires WellFormed(t) && Nanos(t) > 0 && frames != []
    ensures Latencies(base, frames, tags) == Extremes(t, t, t)
    ensures PublishedLatencies(base, frames, tags) == Extremes(t, t, t)
    decreases |frames|
  {
    ExtremesOfOne(t);
    hide LatencyOf;
    hide Timed;
    hide Smaller;
    hide Larger;
    hide WellFormed;
    var n := |frames| - 1;
    if n > 0 {
      LatenciesAreEqual(base, frames[..n], tags[..n], t);
    }
  }

  lemma LatencyOfTestframe(c: Config, mem: Memory, frames: seq<seq<Octet>>, stamps: seq<Time>,
                           ks: seq<nat>, base: seq<Shifted>, tags: seq<Tag>, t: Time)
    requires SentFrames(c, mem, frames, stamps, ks) && |base| >= 4 && Delayed(tags, stamps, t) && frames != []
    ensures Timed(base, frames) && LatencyOf(base, frames, tags) == t
  {
    ReportOnTestframe(c, mem, frames, stamps, ks, base);
    hide ReportOn;
    hide Timed;
    hide Frame;
    hide TestTemplate;
    hide Latency;
  }

  lemma ExtremesOfOne(t: Time)
    requires WellFormed(t) && Nanos(t) > 0
    ensures Smaller(t, NO_MINIMUM) == t == Larger(t, Time(0, 0)) && Smaller(t, t) == t == Larger(t, t)
  {
    AnythingIsBelowNoMinimum(t);
    KeyOrdersNanos(Time(0, 0), t);
  }
}
