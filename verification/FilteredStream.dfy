/** Which frames of the generator pass the filter. */
module FilteredStream {
  import opened Gmii
  import opened BramIo
  import opened TrafficGenerator
  import opened GeneratorStream
  import opened GeneratorRuns
  import opened FilterGmii
  import opened StreamSlots

  // ---- the frames that are kept ----

  /** Frame k is kept if and only if it is the first or begins at least `gap` cycles after
    the end of the last frame kept before it. */
  predicate Kept(c: Config, gap: nat, k: nat)
    decreases k, 1
  {
    var j := LastKept(c, gap, k);
    j < 0 || FrameStart(c, k) - (FrameStart(c, j) + FrameLength(c)) >= gap
  }

  /** The last frame kept before frame k. */
  function LastKept(c: Config, gap: nat, k: nat): (j: int)
    ensures -1 <= j < k && (k > 0 ==> j >= 0)
    decreases k, 0
  {
    if k == 0 then -1 else if Kept(c, gap, k - 1) then k - 1 else LastKept(c, gap, k - 1)
  }

  lemma {:induction false} LastKeptIsLast(c: Config, gap: nat, k: nat)
    ensures var j := LastKept(c, gap, k);
      && (j >= 0 ==> Kept(c, gap, j))
      && forall i :: j < i < k ==> !Kept(c, gap, i)
  {
    hide Kept;
    if k > 0 {
      LastKeptIsLast(c, gap, k - 1);
    }
  }

  lemma FramesEndInOrder(c: Config, j: nat, k: nat)
    requires j < k
    ensures FrameStart(c, j) + FrameLength(c) < FrameStart(c, k)
  {
    SlotsDisjoint(c, j, k);
  }

  lemma {:induction false} FrameBeginsSlot(c: Config, k: nat, t: nat)
    requires InFrame(c, k, t)
    ensures SlotOf(c, t, 0) == k
  {
    SlotIsUnique(c, t, k, SlotOf(c, t, 0));
  }

  lemma {:induction false} FirstCycle(c: Config, mem: Memory, times: seq<Time>, t: nat)
    requires Usable(c) && 0 < t < |times| && Rises(Registered(c, mem, times), t)
    ensures var k := SlotOf(c, t - 1, 0);
      t - 1 == FrameStart(c, k) && Sent(c, k)
  {
    hide StreamAt;
    hide FrameLength;
    hide FrameStart;
    var k := SlotOf(c, t - 1, 0);
    EnabledInFrame(c, mem, times, t - 1);
    if t - 1 > FrameStart(c, k) {
      FrameGoesOn(c, mem, times, k, t - 2);
    }
  }

  lemma NextCycle(c: Config, mem: Memory, times: seq<Time>, t: nat)
    requires Usable(c) && 1 < t < |times|
    requires var x := Registered(c, mem, times); x[t].en && x[t - 1].en
    ensures SlotOf(c, t - 1, 0) == SlotOf(c, t - 2, 0)
  {
    hide StreamAt;
    hide FrameLength;
    hide FrameStart;
    hide SlotLength;
    hide Usable;
    var j, k := SlotOf(c, t - 2, 0), SlotOf(c, t - 1, 0);
    EnabledInFrame(c, mem, times, t - 2);
    EnabledInFrame(c, mem, times, t - 1);
    if j < k {
      FramesEndInOrder(c, j, k);
    } else if k < j {
      FramesEndInOrder(c, k, j);
    }
  }

  /** The filter forwards exactly the frames that are kept. */
  lemma {:induction false} ForwardedIsKept(c: Config, mem: Memory, times: seq<Time>, gap: nat, t: nat)
    requires Usable(c) && 0 < t < |times|
    ensures var x := Registered(c, mem, times);
      Forwarded(x, gap, t) <==> x[t].en && Kept(c, gap, SlotOf(c, t - 1, 0))
    decreases t, 1
  {
    hide StreamAt;
    hide Kept;
    var x := Registered(c, mem, times);
    if Rises(x, t) {
      FirstCycle(c, mem, times, t);
      if Kept(c, gap, SlotOf(c, t - 1, 0)) {
        KeptIsForwarded(c, mem, times, gap, t);
      } else {
        OthersAreNot(c, mem, times, gap, t);
      }
    } else if x[t].en {
      ForwardedIsKept(c, mem, times, gap, t - 1);
      NextCycle(c, mem, times, t);
    }
  }

  lemma {:induction false} KeptIsForwarded(c: Config, mem: Memory, times: seq<Time>, gap: nat, t: nat)
    requires Usable(c) && 0 < t < |times| && Rises(Registered(c, mem, times), t)
    requires Kept(c, gap, SlotOf(c, t - 1, 0))
    ensures Forwarded(Registered(c, mem, times), gap, t)
    decreases t, 0
  {
    hide StreamAt;
    hide FrameLength;
    hide FrameStart;
    var x, k := Registered(c, mem, times), SlotOf(c, t - 1, 0);
    FirstCycle(c, mem, times, t);
    LastKeptIsLast(c, gap, k);
    forall u | 0 <= u < t && Forwarded(x, gap, u)
      ensures t - u > gap
    {
      ForwardedIsKept(c, mem, times, gap, u);
      EnabledInFrame(c, mem, times, u - 1);
      var i, j := SlotOf(c, u - 1, 0), LastKept(c, gap, k);
      if i < k {
        if i < j {
          FramesEndInOrder(c, i, j);
          FrameStartsInOrder(c, i, j);
        }
      } else {
        FrameStartsInOrder(c, k, i);
      }
    }
  }

  lemma FrameStartsInOrder(c: Config, j: nat, k: nat)
    requires j <= k
    ensures FrameStart(c, j) <= FrameStart(c, k)
  {
    SlotsInOrder(c, j, k);
  }

  lemma {:induction false} OthersAreNot(c: Config, mem: Memory, times: seq<Time>, gap: nat, t: nat)
    requires Usable(c) && 0 < t < |times| && Rises(Registered(c, mem, times), t)
    requires !Kept(c, gap, SlotOf(c, t - 1, 0))
    ensures !Forwarded(Registered(c, mem, times), gap, t)
    decreases t, 0
  {
    hide StreamAt;
    var x, k := Registered(c, mem, times), SlotOf(c, t - 1, 0);
    var j := LastKept(c, gap, k);
    var u := FrameStart(c, j) + FrameLength(c);
    LastKeptIsLast(c, gap, k);
    FirstCycle(c, mem, times, t);
    FramesEndInOrder(c, j, k);
    FrameGoesOn(c, mem, times, j, u - 1);
    FrameBeginsSlot(c, j, u - 1);
    ForwardedIsKept(c, mem, times, gap, u);
  }

  /** When all gaps are long enough every frame is kept. */
  lemma {:induction false} AllKept(c: Config, gap: nat, k: nat)
    requires forall i :: 0 <= i < k ==> Gap(c, i) >= gap
    ensures Kept(c, gap, k)
  {
    hide Gap;
    if k > 0 {
      var j := LastKept(c, gap, k);
      SlotsInOrder(c, j, k - 1);
    }
  }

  // ---- their numbers ----

  /** The numbers of the frames kept among the first n, in order. */
  function KeptNumbers(c: Config, gap: nat, n: nat): (ks: seq<nat>)
    ensures |ks| <= n && (n > 0 ==> ks != [] && ks[|ks| - 1] == LastKept(c, gap, n))
    ensures forall i :: 0 <= i < |ks| ==> ks[i] < n && Kept(c, gap, ks[i])
  {
    if n == 0 then [] else KeptNumbers(c, gap, n - 1) + if Kept(c, gap, n - 1) then [n - 1] else []
  }

  lemma NextLastKept(c: Config, gap: nat, k: nat)
    ensures LastKept(c, gap, k + 1) == if Kept(c, gap, k) then k else LastKept(c, gap, k)
  {
    hide Kept;
  }

  lemma NextKept(c: Config, gap: nat, k: nat)
    ensures Kept(c, gap, k) ==> KeptNumbers(c, gap, k + 1) == KeptNumbers(c, gap, k) + [k]
    ensures !Kept(c, gap, k) ==> KeptNumbers(c, gap, k + 1) == KeptNumbers(c, gap, k)
  {
    hide Kept;
  }

  lemma {:induction false} NoneSent(c: Config, gap: nat)
    ensures KeptNumbers(c, gap, 0) == []
  {
  }

  /** When all gaps are long enough nothing is lost. */
  lemma {:induction false} AllNumbersKept(c: Config, gap: nat, n: nat)
    requires forall i :: 0 <= i < n - 1 ==> Gap(c, i) >= gap
    ensures |KeptNumbers(c, gap, n)| == n && forall i :: 0 <= i < n ==> KeptNumbers(c, gap, n)[i] == i
  {
    hide Gap;
    hide Kept;
    hide KeptNumbers;
    if n > 0 {
      AllNumbersKept(c, gap, n - 1);
      NextKept(c, gap, n - 1);
      AllKept(c, gap, n - 1);
    } else {
      NoneSent(c, gap);
    }
  }

  /** The gap registers that are used between n frames are long enough. */
  predicate LongGaps(c: Config, gap: nat, n: nat) {
    && (n > 1 && c.framesPerBurst != 1 ==> GapOf(c.interframeGap) >= gap)
    && (n > c.framesPerBurst > 0 ==> GapOf(c.interburstGap) >= gap)
  }

  lemma GapsAreLong(c: Config, gap: nat, n: nat)
    ensures LongGaps(c, gap, n) <==> forall i :: 0 <= i < n - 1 ==> Gap(c, i) >= gap
  {
    hide GapOf;
    var f := c.framesPerBurst;
    if forall i :: 0 <= i < n - 1 ==> Gap(c, i) >= gap {
      if n > 1 {
        assert Gap(c, 0) >= gap;
        assert f > 1 ==> 1 % f == 1;
      }
      if n > f > 0 {
        assert Gap(c, f - 1) >= gap;
      }
    } else if LongGaps(c, gap, n) {
      forall i | 0 <= i < n - 1
        ensures Gap(c, i) >= gap
      {
        if f > 0 && (i + 1) % f == 0 {
          MultipleIsLarger(i + 1, f);
        }
      }
    }
  }

  lemma MultipleIsLarger(k: nat, f: nat)
    requires k > 0 && f > 0 && k % f == 0
    ensures k >= f
  {
  }

  lemma {:induction false} NoMoreThanSent(c: Config, gap: nat, n: nat, k: nat)
    requires k < n && !Kept(c, gap, k)
    ensures |KeptNumbers(c, gap, n)| < n
  {
    hide Kept;
    if k < n - 1 {
      NoMoreThanSent(c, gap, n - 1, k);
    }
  }

  /** After a frame that is kept, the next one is if and only if the gap between is long enough. */
  lemma KeptAfterKept(c: Config, gap: nat, k: nat)
    requires k > 0
    ensures Kept(c, gap, k - 1) ==> (Kept(c, gap, k) <==> Gap(c, k - 1) >= gap)
  {
    hide Gap;
  }

  /** Of n frames all are kept if and only if every gap between two of them is long enough. */
  lemma {:induction false} AllKeptWhen(c: Config, gap: nat, n: nat)
    ensures |KeptNumbers(c, gap, n)| == n <==> forall i :: 0 <= i < n - 1 ==> Gap(c, i) >= gap
  {
    hide Gap;
    hide Kept;
    hide KeptNumbers;
    if |KeptNumbers(c, gap, n)| == n {
      forall i | 0 <= i < n - 1
        ensures Gap(c, i) >= gap
      {
        if !Kept(c, gap, i) {
          NoMoreThanSent(c, gap, n, i);
        }
        if !Kept(c, gap, i + 1) {
          NoMoreThanSent(c, gap, n, i + 1);
        }
        KeptAfterKept(c, gap, i + 1);
      }
    } else if forall i :: 0 <= i < n - 1 ==> Gap(c, i) >= gap {
      AllNumbersKept(c, gap, n);
    }
  }

  /** When a single gap is too short, but two with a frame between them are long enough,
    every second frame is lost. */
  lemma {:induction false} EvenFramesAreKept(c: Config, gap: nat, g: nat, k: nat)
    requires forall i :: 0 <= i < k ==> Gap(c, i) == g
    requires g < gap <= 2 * g + FrameLength(c)
    ensures Kept(c, gap, k) <==> k % 2 == 0
  {
    hide Kept;
    hide FrameLength;
    hide Gap;
    if k == 0 {
      AllKept(c, gap, 0);
    } else {
      EvenFramesAreKept(c, gap, g, k - 1);
      if k > 1 {
        EvenFramesAreKept(c, gap, g, k - 2);
      }
      DistanceOfEvenFrames(c, gap, g, k);
    }
  }

  lemma DistanceOfEvenFrames(c: Config, gap: nat, g: nat, k: nat)
    requires k > 0 && forall i :: 0 <= i < k ==> Gap(c, i) == g
    requires g < gap <= 2 * g + FrameLength(c)
    requires Kept(c, gap, k - 1) <==> k % 2 == 1
    requires k > 1 ==> (Kept(c, gap, k - 2) <==> k % 2 == 0)
    ensures Kept(c, gap, k) <==> k % 2 == 0
  {
    hide FrameLength;
    hide Gap;
    var j := LastKept(c, gap, k);
    assert j == if k % 2 == 1 then k - 1 else k - 2;
    assert SlotStart(c, k) == SlotStart(c, k - 1) + FrameLength(c) + g;
    assert k > 1 ==> SlotStart(c, k - 1) == SlotStart(c, k - 2) + FrameLength(c) + g;
  }

  /** 0, 2, 4, ... */
  predicate Evens(ks: seq<nat>) {
    forall i :: 0 <= i < |ks| ==> ks[i] == 2 * i
  }

  lemma AddIfEven(ks: seq<nat>, k: nat)
    requires Evens(ks) && |ks| == (k + 1) / 2
    ensures k % 2 == 0 ==> Evens(ks + [k]) && |ks + [k]| == (k + 2) / 2
    ensures k % 2 == 1 ==> |ks| == (k + 2) / 2
  {
  }

  lemma {:induction false} HalfAreKept(c: Config, gap: nat, g: nat, n: nat)
    requires forall i :: 0 <= i < n ==> Gap(c, i) == g
    requires g < gap <= 2 * g + FrameLength(c)
    ensures |KeptNumbers(c, gap, n)| == (n + 1) / 2 && Evens(KeptNumbers(c, gap, n))
  {
    hide Kept;
    hide KeptNumbers;
    hide Gap;
    hide FrameLength;
    if n > 0 {
      HalfAreKept(c, gap, g, n - 1);
      NextKept(c, gap, n - 1);
      EvenFramesAreKept(c, gap, g, n - 1);
      hide Evens;
      AddIfEven(KeptNumbers(c, gap, n - 1), n - 1);
    } else {
      NoneSent(c, gap);
    }
  }
}
