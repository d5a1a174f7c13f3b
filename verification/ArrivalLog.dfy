/** What of the stream of the generator arrives at the analyzer, as a log. */
module ArrivalLog {
  import opened Arithmetic
  import opened Octets
  import opened Gmii
  import opened TrafficAnalyzer
  import opened Receiver
  import opened ReceiverRuns
  import opened TrafficGenerator
  import opened GeneratorStream
  import opened GeneratorRuns
  import opened TesterLoop
  import opened StreamSlots
  import opened FilteredStream
  import opened TesterRuns

  // ---- the log of the arriving stream ----

  lemma {:induction false} LogRunConcat(l: Log, before: seq<Input>, after: seq<Input>)
    ensures LogRun(l, before + after) == LogRun(LogRun(l, before), after)
    decreases |after|
  {
    hide LogStep;
    if after == [] {
      assert before + after == before;
    } else {
      var n := |after| - 1;
      assert (before + after)[..|before| + n] == before + after[..n];
      LogRunConcat(l, before, after[..n]);
    }
  }

  lemma {:induction false} LogRunSplit(l: Log, ins: seq<Input>, a: nat, b: nat)
    requires a <= b <= |ins|
    ensures LogRun(l, ins[..b]) == LogRun(LogRun(l, ins[..a]), ins[a..b])
  {
    hide LogStep;
    assert ins[..b] == ins[..a] + ins[a..b];
    LogRunConcat(l, ins[..a], ins[a..b]);
  }

  /** What the log has to say after frames have ended, with nothing on the line since. */
  ghost predicate Logged(l: Log, frames: seq<seq<Octet>>, tags: seq<Tag>) {
    l.wire.cur == [] && l.wire.done == frames && l.tags == tags && !l.freeze
  }

  predicate AllIdle(ins: seq<Input>) {
    forall i :: 0 <= i < |ins| ==> ins[i].line == IDLE && !ins[i].freeze
  }

  lemma {:induction false} LogIdle(l: Log, ins: seq<Input>)
    requires Logged(l, l.wire.done, l.tags) && AllIdle(ins)
    ensures Logged(LogRun(l, ins), l.wire.done, l.tags) && (ins != [] ==> !LogRun(l, ins).wire.ended)
  {
    if ins != [] {
      LogIdle(l, ins[..|ins| - 1]);
    }
  }

  /** The log p cycles into a slot with frame f. */
  ghost predicate LogInSlot(l: Log, from: Log, f: seq<Octet>, start: Time, p: nat) {
    && !l.freeze
    && (p <= |f| + 2 ==> l.wire.done == from.wire.done && l.tags == from.tags)
    && (p <= 2 ==> l.wire.cur == [])
    && (2 < p <= |f| + 2 ==> l.wire.cur == f[..p - 2] && l.tag == Tag(start, false))
    && (p > |f| + 2 ==> Logged(l, from.wire.done + [f], from.tags + [Tag(start, false)]))
  }

  predicate SlotInputs(ins: seq<Input>, f: seq<Octet>) {
    && |ins| >= |f| + 3 && f != []
    && forall p :: 0 <= p < |ins| ==> ins[p].line == SlotCycle(f, p) && !ins[p].freeze
  }

  lemma {:induction false} LogOfSlot(l: Log, ins: seq<Input>, f: seq<Octet>, p: nat)
    requires Logged(l, l.wire.done, l.tags) && SlotInputs(ins, f) && p <= |ins|
    ensures LogInSlot(LogRun(l, ins[..p]), l, f, ins[2].now, p)
  {
    if p > 0 {
      LogOfSlot(l, ins, f, p - 1);
      assert ins[..p][..p - 1] == ins[..p - 1];
      assert ins[..p][p - 1] == ins[p - 1];
      if 3 <= p <= |f| + 2 {
        assert f[..p - 2] == f[..p - 3] + [f[p - 3]];
      } else if p == |f| + 3 {
        assert f[..|f|] == f;
      }
    }
  }

  function ClockAt(times: seq<Time>, t: nat): Time {
    if t < |times| then times[t] else Time(0, 0)
  }

  // ---- the frames that arrive ----

  function FramesOf(u: Setup, times: seq<Time>, ks: seq<nat>): (fs: seq<seq<Octet>>)
    requires Usable(u.gen)
    ensures |fs| == |ks|
  {
    seq(|ks|, i requires 0 <= i < |ks| => FrameOf(u.gen, u.mem, times, ks[i]))
  }

  function ArrivalTags(u: Setup, times: seq<Time>, ks: seq<nat>): (tags: seq<Tag>)
    ensures |tags| == |ks|
  {
    seq(|ks|, i requires 0 <= i < |ks| => Tag(ClockAt(times, Delay(u) + FrameStart(u.gen, ks[i])), false))
  }

  /** The numbers of the frames that arrive when n are sent. */
  function Arrived(u: Setup, n: nat): (ks: seq<nat>)
    requires u.minGap < W32
  {
    KeptNumbers(u.gen, Least(u), n)
  }

  /** The log of what has arrived when n slots have. */
  function LogAfter(u: Setup, times: seq<Time>, n: nat): Log
    requires Usable(u.gen) && u.minGap < W32 && Delay(u) + SlotStart(u.gen, n) <= |times|
  {
    LogRun(EmptyLog(false), Arrivals(u, times)[..Delay(u) + SlotStart(u.gen, n)])
  }

  /** The log holds the frames with the given numbers, each with the time at which it arrived. */
  ghost predicate LoggedFrames(l: Log, u: Setup, times: seq<Time>, ks: seq<nat>)
    requires Usable(u.gen)
  {
    Logged(l, FramesOf(u, times, ks), ArrivalTags(u, times, ks))
  }

  /** When n slots have arrived, the log holds exactly the frames that were kept. */
  lemma {:induction false} LogOfSlots(u: Setup, times: seq<Time>, n: nat)
    requires Usable(u.gen) && u.minGap < W32 && (u.gen.totalFrames == 0 || n <= u.gen.totalFrames)
    requires Delay(u) + SlotStart(u.gen, n) <= |times|
    ensures LoggedFrames(LogAfter(u, times, n), u, times, Arrived(u, n))
  {
    hide LogAfter;
    hide LoggedFrames;
    hide SlotLength;
    hide Arrived;
    if n == 0 {
      NothingArrives(u, times);
    } else {
      SlotsInOrder(u.gen, n - 1, n);
      LogOfSlots(u, times, n - 1);
      LogOfSlotMore(u, times, n - 1);
    }
  }

  lemma NothingArrives(u: Setup, times: seq<Time>)
    requires Usable(u.gen) && u.minGap < W32 && Delay(u) <= |times|
    ensures LoggedFrames(LogAfter(u, times, 0), u, times, Arrived(u, 0))
  {
    LogIdle(EmptyLog(false), Arrivals(u, times)[..Delay(u)]);
  }

  lemma LogOfSlotMore(u: Setup, times: seq<Time>, k: nat)
    requires Usable(u.gen) && u.minGap < W32 && Sent(u.gen, k) && Delay(u) + SlotStart(u.gen, k + 1) <= |times|
    requires SlotStart(u.gen, k) <= SlotStart(u.gen, k + 1)
    requires LoggedFrames(LogAfter(u, times, k), u, times, Arrived(u, k))
    ensures LoggedFrames(LogAfter(u, times, k + 1), u, times, Arrived(u, k + 1))
  {
    hide LogAfter;
    hide LoggedFrames;
    hide SlotLength;
    hide Arrivals;
    hide Kept;
    LogOfOneMore(u, times, k);
    if Kept(u.gen, Least(u), k) {
      LogOfKeptSlot(u, times, k, Arrived(u, k), LogAfter(u, times, k));
    } else {
      LogOfLostSlot(u, times, k, Arrived(u, k), LogAfter(u, times, k));
      assert Arrived(u, k + 1) == Arrived(u, k);
    }
  }

  lemma LogOfOneMore(u: Setup, times: seq<Time>, k: nat)
    requires Usable(u.gen) && u.minGap < W32 && Delay(u) + SlotStart(u.gen, k + 1) <= |times|
    requires SlotStart(u.gen, k) <= SlotStart(u.gen, k + 1)
    ensures LogAfter(u, times, k + 1) == LogRun(LogAfter(u, times, k), SlotOfInputs(u, times, k))
  {
    hide SlotLength;
    hide Arrivals;
    hide LogStep;
    var a, b := Delay(u) + SlotStart(u.gen, k), Delay(u) + SlotStart(u.gen, k + 1);
    LogRunSplit(EmptyLog(false), Arrivals(u, times), a, b);
  }

  /** What arrives for slot k. */
  function SlotOfInputs(u: Setup, times: seq<Time>, k: nat): (ins: seq<Input>)
    requires Usable(u.gen) && u.minGap < W32 && SlotStart(u.gen, k) <= SlotStart(u.gen, k + 1)
    requires Delay(u) + SlotStart(u.gen, k + 1) <= |times|
    ensures |ins| == SlotStart(u.gen, k + 1) - SlotStart(u.gen, k)
  {
    Arrivals(u, times)[Delay(u) + SlotStart(u.gen, k)..Delay(u) + SlotStart(u.gen, k + 1)]
  }

  lemma LogOfKeptSlot(u: Setup, times: seq<Time>, k: nat, ks: seq<nat>, l: Log)
    requires Usable(u.gen) && u.minGap < W32 && Sent(u.gen, k) && Delay(u) + SlotStart(u.gen, k + 1) <= |times|
    requires SlotStart(u.gen, k) <= SlotStart(u.gen, k + 1)
    requires Kept(u.gen, Least(u), k) && LoggedFrames(l, u, times, ks)
    ensures LoggedFrames(LogRun(l, SlotOfInputs(u, times, k)), u, times, ks + [k])
  {
    hide FrameOf;
    hide SlotInputs;
    hide Kept;
    hide LogStep;
    hide SlotOfInputs;
    hide SlotLength;
    var slot := SlotOfInputs(u, times, k);
    SlotArrives(u, times, k);
    LogOfSlot(l, slot, FrameOf(u.gen, u.mem, times, k), |slot|);
    assert slot[..|slot|] == slot;
    FrameFits(u.gen, k, k + 1);
    OneMoreArrival(u, times, ks, k);
  }

  lemma {:induction false} FrameFits(c: Config, k: nat, n: nat)
    requires k < n
    ensures FrameStart(c, k) + 1 <= SlotStart(c, n)
  {
    SlotsDisjoint(c, k, n);
  }

  lemma OneMoreArrival(u: Setup, times: seq<Time>, ks: seq<nat>, k: nat)
    requires Usable(u.gen) && Delay(u) + FrameStart(u.gen, k) < |times|
    ensures FramesOf(u, times, ks + [k]) == FramesOf(u, times, ks) + [FrameOf(u.gen, u.mem, times, k)]
    ensures ArrivalTags(u, times, ks + [k])
         == ArrivalTags(u, times, ks) + [Tag(times[Delay(u) + FrameStart(u.gen, k)], false)]
  {
    hide FrameOf;
  }

  lemma {:induction false} LogOfLostSlot(u: Setup, times: seq<Time>, k: nat, ks: seq<nat>, l: Log)
    requires Usable(u.gen) && u.minGap < W32 && Sent(u.gen, k) && Delay(u) + SlotStart(u.gen, k + 1) <= |times|
    requires SlotStart(u.gen, k) <= SlotStart(u.gen, k + 1)
    requires !Kept(u.gen, Least(u), k) && LoggedFrames(l, u, times, ks)
    ensures LoggedFrames(LogRun(l, SlotOfInputs(u, times, k)), u, times, ks)
  {
    hide LogStep;
    hide Kept;
    hide ArrivingAt;
    hide SlotLength;
    var slot := SlotOfInputs(u, times, k);
    forall p | 0 <= p < |slot|
      ensures slot[p].line == IDLE && !slot[p].freeze
    {
      CycleArrives(u, times, k, p);
      assert slot[p] == Arrivals(u, times)[Delay(u) + SlotStart(u.gen, k) + p];
    }
    LogIdle(l, slot);
  }

  lemma SlotArrives(u: Setup, times: seq<Time>, k: nat)
    requires Usable(u.gen) && u.minGap < W32 && Sent(u.gen, k) && Delay(u) + SlotStart(u.gen, k + 1) <= |times|
    requires SlotStart(u.gen, k) <= SlotStart(u.gen, k + 1) && Kept(u.gen, Least(u), k)
    ensures var slot := SlotOfInputs(u, times, k);
      && SlotInputs(slot, FrameOf(u.gen, u.mem, times, k))
      && slot[2].now == times[Delay(u) + FrameStart(u.gen, k)]
  {
    hide FrameOf;
    hide SlotCycle;
    hide SlotLength;
    hide FrameLength;
    hide ArrivingAt;
    hide Kept;
    FrameFitsSlot(u.gen, k);
    var slot := SlotOfInputs(u, times, k);
    forall p | 0 <= p < |slot|
      ensures slot[p].line == SlotCycle(FrameOf(u.gen, u.mem, times, k), p)
    {
      CycleArrives(u, times, k, p);
      assert slot[p] == Arrivals(u, times)[Delay(u) + SlotStart(u.gen, k) + p];
    }
  }

  lemma CycleArrives(u: Setup, times: seq<Time>, k: nat, p: nat)
    requires Usable(u.gen) && u.minGap < W32 && Sent(u.gen, k) && SlotStart(u.gen, k) + p < SlotStart(u.gen, k + 1)
    ensures ArrivingAt(u, times, Delay(u) + SlotStart(u.gen, k) + p)
         == if Kept(u.gen, Least(u), k) then SlotCycle(FrameOf(u.gen, u.mem, times, k), p) else IDLE
  {
    hide FrameOf;
    hide SlotCycle;
    hide SlotLength;
    hide Kept;
    var t := SlotStart(u.gen, k) + p;
    SlotIsUnique(u.gen, t, k, SlotOf(u.gen, t, 0));
  }

  /** n slots have gone by, and since then nothing has arrived, for one cycle or two when the
    next frame follows, for as long as one likes when there is none. */
  predicate Quiet(u: Setup, n: nat, t: nat) {
    && (u.gen.totalFrames == 0 || n <= u.gen.totalFrames)
    && Delay(u) + SlotStart(u.gen, n) < t && (n != u.gen.totalFrames ==> t <= Delay(u) + FrameStart(u.gen, n))
  }

  lemma {:induction false} NothingSince(u: Setup, times: seq<Time>, n: nat, t: nat, i: nat)
    requires Usable(u.gen) && u.minGap < W32 && n > 0 && Quiet(u, n, t) && Delay(u) + SlotStart(u.gen, n) <= i < t
    ensures ArrivingAt(u, times, i) == IDLE
  {
    hide FrameOf;
    var x := i - Delay(u);
    var k := SlotOf(u.gen, x, 0);
    if n == u.gen.totalFrames {
      if k < n {
        SlotsDisjoint(u.gen, k, n);
      }
    } else {
      SlotIsUnique(u.gen, x, n, k);
    }
  }

  lemma {:induction false} IdleSince(u: Setup, times: seq<Time>, n: nat, t: nat)
    requires Usable(u.gen) && u.minGap < W32 && n > 0 && Quiet(u, n, t) && t <= |times|
    ensures AllIdle(Arrivals(u, times)[Delay(u) + SlotStart(u.gen, n)..t])
  {
    hide ArrivingAt;
    var arrivals, a := Arrivals(u, times), Delay(u) + SlotStart(u.gen, n);
    var rest := arrivals[a..t];
    forall i | 0 <= i < |rest|
      ensures rest[i].line == IDLE && !rest[i].freeze
    {
      NothingSince(u, times, n, t, a + i);
      assert rest[i] == arrivals[a + i];
    }
  }

  lemma NothingMore(u: Setup, times: seq<Time>, n: nat, t: nat, l: Log)
    requires Usable(u.gen) && u.minGap < W32 && n > 0 && Quiet(u, n, t) && t <= |times|
    requires Logged(l, l.wire.done, l.tags)
    ensures
      var l' := LogRun(l, Arrivals(u, times)[Delay(u) + SlotStart(u.gen, n)..t]);
      Logged(l', l.wire.done, l.tags) && !l'.wire.ended
  {
    hide ArrivingAt;
    hide Arrivals;
    hide Logged;
    hide LogStep;
    hide AllIdle;
    IdleSince(u, times, n, t);
    LogIdle(l, Arrivals(u, times)[Delay(u) + SlotStart(u.gen, n)..t]);
  }

  lemma LogWhenQuiet(u: Setup, times: seq<Time>, n: nat, t: nat)
    requires Usable(u.gen) && u.minGap < W32 && n > 0 && Quiet(u, n, t) && t <= |times|
    ensures
      var l := LogRun(EmptyLog(false), Arrivals(u, times)[..t]);
      LoggedFrames(l, u, times, Arrived(u, n)) && !l.wire.ended
  {
    hide ArrivingAt;
    hide Arrivals;
    hide Arrived;
    hide LogStep;
    hide FramesOf;
    hide ArrivalTags;
    LogOfSlots(u, times, n);
    NothingMore(u, times, n, t, LogAfter(u, times, n));
    LogRunSplit(EmptyLog(false), Arrivals(u, times), Delay(u) + SlotStart(u.gen, n), t);
  }
}
