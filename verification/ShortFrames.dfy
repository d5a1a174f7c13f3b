/** Frames with fewer than four octets after the preamble: the checker does not decide them. */
module ShortFrames {
  import opened Octets
  import opened EthernetCrc8
  import opened SerialCrc
  import opened FrameCheck
  import opened Gmii
  import opened CrcCheck

  // ---- every frame check sequence occurs ----

  /** The register before a step with feedback t[0] that leaves t, but for its top bit,
    which is lost. */
  function StepBefore(t: Bits32): Bits32 {
    seq(32, i requires 0 <= i < 32 =>
      if i == 31 then 0 else if Tap(i + 1) then Xor(t[i + 1], t[0]) else t[i + 1])
  }

  /** The n bits that lead from c to a register that agrees with t in its n low bits. */
  function Leading(c: Bits32, t: Bits32, n: nat): (x: seq<bv1>)
    requires n <= 32
    ensures |x| == n
    decreases n
  {
    if n == 0 then []
    else
      var front := Leading(c, StepBefore(t), n - 1);
      front + [Xor(SerialRun(c, front)[31], t[0])]
  }

  lemma {:induction false} LeadsTo(c: Bits32, t: Bits32, n: nat)
    requires n <= 32
    ensures AgreeBelow(SerialRun(c, Leading(c, t, n)), t, n)
    decreases n
  {
    if n > 0 {
      var front := Leading(c, StepBefore(t), n - 1);
      var a := SerialRun(c, front);
      LeadsTo(c, StepBefore(t), n - 1);
      SerialRunConcat(c, front, [Xor(a[31], t[0])]);
      OneStepOn(a, t, n);
    }
  }

  lemma {:induction false} OneStepOn(a: Bits32, t: Bits32, n: nat)
    requires 0 < n <= 32 && AgreeBelow(a, StepBefore(t), n - 1)
    ensures AgreeBelow(SerialRun(a, [Xor(a[31], t[0])]), t, n)
  {
    var b := Xor(a[31], t[0]);
    assert [b][1..] == [];
    assert Xor(a[31], b) == t[0];
    forall i | 0 < i < n
      ensures SerialStep(a, b)[i] == t[i]
    {
      assert a[i - 1] == StepBefore(t)[i - 1];
      assert Xor(Xor(t[i], t[0]), t[0]) == t[i];
    }
  }

  /** The octets with the given 32 bits. */
  function OctetsOfBits(x: seq<bv1>): (s: seq<Octet>)
    requires |x| == 32
    ensures |s| == 4
  {
    [OctetOf(x[0..8]), OctetOf(x[8..16]), OctetOf(x[16..24]), OctetOf(x[24..32])]
  }

  lemma BitStreamOfBits(x: seq<bv1>)
    requires |x| == 32
    ensures BitStream(OctetsOfBits(x)) == x
  {
    var a, b, c, d := x[0..8], x[8..16], x[16..24], x[24..32];
    assert x == a + b + c + d;
    hide OctetOf, Bits, BitStream;
    BitStreamOfFour(OctetsOfBits(x));
    BitsOfOctet(a);
    BitsOfOctet(b);
    BitsOfOctet(c);
    BitsOfOctet(d);
  }

  /** The register whose frame check sequence is g. */
  function RegisterOf(g: seq<Octet>): Bits32
    requires |g| == 4
  {
    seq(32, i requires 0 <= i < 32 => !BitStream(g)[31 - i])
  }

  lemma {:induction false} FcsOfRegister(g: seq<Octet>)
    requires |g| == 4
    ensures Fcs(RegisterOf(g)) == g
  {
    hide Fcs;
    FcsBits(RegisterOf(g));
    BitStreamInjective(Fcs(RegisterOf(g)), g);
  }

  /** Four octets whose frame check sequence is g. */
  function MessageWith(g: seq<Octet>): (q: seq<Octet>)
    requires |g| == 4
    ensures |q| == 4
  {
    OctetsOfBits(Leading(Ones(), RegisterOf(g), 32))
  }

  /** Any four octets are the frame check sequence of some message. */
  lemma {:induction false} EveryFcsOccurs(g: seq<Octet>)
    requires |g| == 4
    ensures Fcs(Crc(MessageWith(g))) == g
  {
    hide Fcs;
    hide RegisterOf;
    hide OctetsOfBits;
    var t := RegisterOf(g);
    var x := Leading(Ones(), t, 32);
    LeadsTo(Ones(), t, 32);
    BitStreamOfBits(x);
    CrcIsSerial(Ones(), MessageWith(g));
    assert SerialRun(Ones(), x) == t;
    FcsOfRegister(g);
  }

  // ---- one frame and then a short one ----

  /** The line with frame f, a gap, and frame g. */
  function TwoFrames(before: seq<Cycle>, f: seq<Octet>, gap: seq<Cycle>, g: seq<Octet>, idle: Cycle): seq<Cycle> {
    before + FrameCycles(f) + gap + FrameCycles(g) + [idle]
  }

  predicate IsGap(gap: seq<Cycle>) {
    gap != [] && forall i :: 0 <= i < |gap| ==> !gap[i].en
  }

  lemma {:induction false} GapEndsFrame(w: Wire, gap: seq<Cycle>)
    requires IsGap(gap)
    ensures WireRun(w, gap).cur == [] && WireRun(w, gap).done == if w.cur != [] then w.done + [w.cur] else w.done
  {
    var front := gap[..|gap| - 1];
    if front != [] {
      GapEndsFrame(w, front);
    }
  }

  lemma {:induction false} LineBetween(w: Wire, before: seq<Cycle>, f: seq<Octet>, gap: seq<Cycle>)
    requires WireRun(w, before).cur == [] && f != [] && IsGap(gap)
    ensures var w' := WireRun(w, before + FrameCycles(f) + gap);
      w'.cur == [] && w'.done == WireRun(w, before).done + [f]
  {
    WireRunConcat(w, before, FrameCycles(f));
    WireRunConcat(w, before + FrameCycles(f), gap);
    WireRunFrame(WireRun(w, before), f);
    GapEndsFrame(WireRun(w, before + FrameCycles(f)), gap);
  }

  /** The octets before the short frame stand in for the ones that it does not have. */
  lemma {:induction false} StaleAfter(prior: seq<Shifted>, q: seq<Octet>, rest: seq<Octet>, m: seq<Octet>)
    requires |prior| >= 4 && |rest| + |m| == 4 && |m| < 4
    ensures StaleVerdict(prior + Entries(q + rest), m) <==> rest + m == Fcs(Crc(q))
  {
    hide NextCrc;
    hide Fcs;
    var p, k := prior + Entries(q + rest), |prior| + |q|;
    OctetsOfEntries(prior, q + rest);
    EntryAt(q + rest, |q|);
    assert (q + rest)[..|q|] == q;
    assert OctetsOf(p)[k..] == rest;
  }

  /** After a frame with data q and then `rest`, a short frame is accepted if and only if its
    data completes `rest` to the frame check sequence of q - in two pieces, with a gap and a
    preamble in between. */
  lemma {:induction false} ShortFrameCompletesLast(r: CheckRegs, base: seq<Shifted>, w: Wire, before: seq<Cycle>,
                                                   f: seq<Octet>, q: seq<Octet>, rest: seq<Octet>, gap: seq<Cycle>,
                                                   g: seq<Octet>, idle: Cycle)
    requires CheckInv(r, base, w) && WireRun(w, before).cur == [] && IsGap(gap) && !idle.en
    requires GoodPreamble(f) && Data(f) == q + rest
    requires GoodPreamble(g) && |Data(g)| < 4 && |rest| + |Data(g)| == 4
    ensures CheckRun(r, TwoFrames(before, f, gap, g, idle)).crcOk <==> rest + Data(g) == Fcs(Crc(q))
  {
    hide Fcs;
    hide CheckInv;
    hide CheckStep;
    hide StaleVerdict;
    hide NextCrc;
    hide Data;
    hide GoodPreamble;
    assert f != [] && g != [] by { PreambleIsNotEmpty(f); PreambleIsNotEmpty(g); }
    var line := before + FrameCycles(f) + gap;
    var done := WireRun(w, before).done;
    LineBetween(w, before, f, gap);
    CheckerDecides(r, base, w, line, g, idle);
    BaseHasFour(r, base, w);
    assert (done + [f])[..|done|] == done;
    StaleAfter(Shifts(base, done), q, rest, Data(g));
  }

  lemma PreambleIsNotEmpty(f: seq<Octet>)
    requires GoodPreamble(f)
    ensures f != []
  {
  }

  lemma BaseHasFour(r: CheckRegs, base: seq<Shifted>, w: Wire)
    requires CheckInv(r, base, w)
    ensures |base| >= 4
  {
    hide NextCrc;
  }

  const PREAMBLE: seq<Octet> := [0x55, 0x55, 0x55, 0x55, 0x55, 0x55, 0x55, 0xD5]

  /** A frame with the given data. */
  function FrameWith(m: seq<Octet>): seq<Octet> {
    PREAMBLE + m
  }

  lemma DataOfFrameWith(m: seq<Octet>)
    ensures GoodPreamble(FrameWith(m)) && Data(FrameWith(m)) == m
  {
    var f := FrameWith(m);
    assert Preamble(f, 7) && f[6] == 0x55 && f[7] == 0xD5;
    assert DataStart(f) == 8;
  }

  /** The checker decides nothing about a frame with fewer than four data octets: for each
    there is a frame after which it is accepted, and one after which it is not. */
  lemma {:induction false} ShortFrameIsUndecided(r: CheckRegs, base: seq<Shifted>, w: Wire, before: seq<Cycle>,
                                                 gap: seq<Cycle>, g: seq<Octet>, idle: Cycle)
    requires CheckInv(r, base, w) && WireRun(w, before).cur == [] && IsGap(gap) && !idle.en
    requires GoodPreamble(g) && |Data(g)| < 4
    ensures exists f :: GoodPreamble(f) && CheckRun(r, TwoFrames(before, f, gap, g, idle)).crcOk
    ensures exists f :: GoodPreamble(f) && !CheckRun(r, TwoFrames(before, f, gap, g, idle)).crcOk
  {
    hide Fcs;
    hide CheckInv;
    hide CheckRun;
    hide Crc;
    hide Data;
    hide GoodPreamble;
    hide FrameWith;
    hide MessageWith;
    hide TwoFrames;
    var m := Data(g);
    var zeros, ones: seq<Octet> := seq(4 - |m|, _ => 0), seq(4 - |m|, _ => 1);
    var q := MessageWith(zeros + m);
    EveryFcsOccurs(zeros + m);
    DataOfFrameWith(q + zeros);
    DataOfFrameWith(q + ones);
    ShortFrameCompletesLast(r, base, w, before, FrameWith(q + zeros), q, zeros, gap, g, idle);
    ShortFrameCompletesLast(r, base, w, before, FrameWith(q + ones), q, ones, gap, g, idle);
    assert (zeros + m)[0] == 0 && (ones + m)[0] == 1;
  }
}
