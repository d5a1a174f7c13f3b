/** The stream of the generator, cycle by cycle. */
module StreamSlots {
  import opened Gmii
  import opened BramIo
  import opened TrafficGenerator
  import opened GeneratorStream
  import opened GeneratorRuns
  import opened FilterGmii

  /** The slot that cycle t belongs to. */
  function SlotOf(c: Config, t: nat, k: nat): (j: nat)
    requires SlotStart(c, k) <= t
    ensures j >= k && SlotStart(c, j) <= t < SlotStart(c, j) + SlotLength(c, j)
    decreases t - SlotStart(c, k)
  {
    hide SlotLength;
    if t < SlotStart(c, k) + SlotLength(c, k) then k
    else
      assert SlotStart(c, k + 1) == SlotStart(c, k) + SlotLength(c, k);
      SlotOf(c, t, k + 1)
  }

  lemma {:induction false} SlotsInOrder(c: Config, j: nat, k: nat)
    requires j <= k
    ensures SlotStart(c, j) <= SlotStart(c, k)
  {
    if j < k {
      SlotsInOrder(c, j, k - 1);
    }
  }

  /** What is on the line in cycle t, for every t. */
  function StreamAt(c: Config, mem: Memory, times: seq<Time>, t: nat): Cycle
    requires Usable(c)
  {
    var k := SlotOf(c, t, 0);
    if Sent(c, k) then SlotCycle(FrameOf(c, mem, times, k), t - SlotStart(c, k)) else IDLE
  }

  lemma OutputIsStream(g: Generator, c: Config, mem: Memory, times: seq<Time>, t: nat)
    requires Usable(c) && Ready(g, c, mem) && t < |times|
    ensures Output(g, c, mem, times, t) == StreamAt(c, mem, times, t)
  {
    hide Ready;
    hide Output;
    hide FrameOf;
    hide SlotCycle;
    var k := SlotOf(c, t, 0);
    if Sent(c, k) {
      SendsFrames(g, c, mem, times, k, t - SlotStart(c, k));
    } else {
      SlotsInOrder(c, c.totalFrames, k);
      SendsNoMore(g, c, mem, times, t);
    }
  }

  /** The line of the generator, as registers: one cycle later. */
  function Registered(c: Config, mem: Memory, times: seq<Time>): (s: seq<Cycle>)
    requires Usable(c)
    ensures |s| == |times|
  {
    seq(|times|, t requires 0 <= t < |times| => if t == 0 then IDLE else StreamAt(c, mem, times, t - 1))
  }

  /** The gaps of the generator are long enough for the filter. */
  ghost predicate Spaced(c: Config, gap: nat) {
    forall k: nat :: Gap(c, k) >= gap
  }

  lemma {:induction false} SlotsDisjoint(c: Config, j: nat, k: nat)
    requires j < k
    ensures SlotStart(c, j) + SlotLength(c, j) <= SlotStart(c, k)
  {
    hide SlotLength;
    SlotsInOrder(c, j + 1, k);
  }

  lemma {:induction false} SlotIsUnique(c: Config, t: nat, j: nat, k: nat)
    requires SlotStart(c, j) <= t < SlotStart(c, j) + SlotLength(c, j)
    requires SlotStart(c, k) <= t < SlotStart(c, k) + SlotLength(c, k)
    ensures j == k
  {
    hide SlotLength;
    if j < k {
      SlotsDisjoint(c, j, k);
    } else if k < j {
      SlotsDisjoint(c, k, j);
    }
  }

  predicate InFrame(c: Config, k: nat, t: nat) {
    Sent(c, k) && FrameStart(c, k) <= t < FrameStart(c, k) + FrameLength(c)
  }

  lemma {:induction false} EnabledInFrame(c: Config, mem: Memory, times: seq<Time>, t: nat)
    requires Usable(c)
    ensures StreamAt(c, mem, times, t).en <==> InFrame(c, SlotOf(c, t, 0), t)
    ensures !StreamAt(c, mem, times, t).en ==> StreamAt(c, mem, times, t) == IDLE
  {
    hide SlotLength;
    hide FrameLength;
  }

  lemma FrameGoesOn(c: Config, mem: Memory, times: seq<Time>, k: nat, t: nat)
    requires Usable(c) && InFrame(c, k, t)
    ensures StreamAt(c, mem, times, t).en
  {
    hide SlotLength;
    hide FrameLength;
    hide StreamAt;
    EnabledInFrame(c, mem, times, t);
    SlotIsUnique(c, t, k, SlotOf(c, t, 0));
  }

  /** Between two frames. */
  lemma FramesApart(c: Config, gap: nat, j: nat, a: nat, k: nat, b: nat)
    requires Usable(c) && Spaced(c, gap) && InFrame(c, j, a) && b == FrameStart(c, k) && a < b
    ensures b - a > gap
  {
    hide FrameLength;
    if j < k {
      SlotsDisjoint(c, j, k);
      assert Gap(c, j) >= gap;
    } else {
      SlotsInOrder(c, k, j);
    }
  }

  lemma StreamIsWellSpaced(c: Config, mem: Memory, times: seq<Time>, gap: nat)
    requires Usable(c) && Spaced(c, gap)
    ensures WellSpaced(Registered(c, mem, times), gap)
  {
    hide StreamAt;
    hide FrameLength;
    hide Spaced;
    hide FrameStart;
    hide Gap;
    var x := Registered(c, mem, times);
    forall a, b | 0 <= a < b < |x| && x[a].en && Rises(x, b)
      ensures b - a > gap
    {
      var k := SlotOf(c, b - 1, 0);
      EnabledInFrame(c, mem, times, a - 1);
      EnabledInFrame(c, mem, times, b - 1);
      if b - 1 > FrameStart(c, k) {
        FrameGoesOn(c, mem, times, k, b - 2);
      }
      FramesApart(c, gap, SlotOf(c, a - 1, 0), a - 1, k, b - 1);
    }
  }
}
