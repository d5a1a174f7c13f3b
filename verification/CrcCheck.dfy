/** The frame check sequence checker
  (lib/hw/lsi/cores/traffic_analyzer_gmii/hdl/ethernet_crc_8_check.v). */
module CrcCheck {
  import opened Octets
  import opened EthernetCrc8
  import opened FrameCheck
  import opened Gmii

  /** `crc_history[0..3]`; the other two words of the source's array are never used. */
  type CrcHistory = s: seq<Bits32> | |s| == 4 witness [Ones(), Ones(), Ones(), Ones()]

  datatype CheckRegs = CheckRegs(
    state: nat, calculate: bool, init: bool, dValid: bool, preambleIndex: nat,
    crcHistory: CrcHistory, dHistory: Bits32,
    crc: CrcRegs, crcOk: bool, preambleOk: bool)

  /** `{~d[0], ~d[1], ..., ~d[7]}`, bit 0 first. */
  function Mirror(d: Octet): Bits8 {
    var b := Bits(d);
    seq(8, i requires 0 <= i < 8 => !b[7 - i])
  }

  function Push(h: CrcHistory, c: Bits32): CrcHistory {
    [c] + h[..3]
  }

  function CheckIdle(r: CheckRegs, c: Cycle): CheckRegs {
    r.(crcOk := false, preambleOk := false, init := true, calculate := false, dValid := false,
       preambleIndex := 1, state := if !c.en then 0 else if c.d == 0x55 then 1 else 3)
  }

  function CheckPreamble(r: CheckRegs, c: Cycle): CheckRegs {
    var t := r.(preambleIndex := (r.preambleIndex + 1) % 32);
    if !c.en then t.(state := 0)
    else if c.d != 0x55 && c.d != 0xD5 then t.(state := 3)
    else if r.preambleIndex < 6 && c.d == 0xD5 then t.(state := 3)
    else if r.preambleIndex >= 7 && c.d == 0x55 then t.(state := 3)
    else if c.d == 0xD5 then t.(preambleOk := true, state := 2, init := false, calculate := true, dValid := true)
    else t
  }

  function CheckData(r: CheckRegs, c: Cycle): CheckRegs {
    if !c.en then
      r.(init := true, calculate := false, dValid := false,
         crcOk := if r.crcHistory[3] == r.dHistory then true else r.crcOk, state := 0)
    else
      r.(crcHistory := Push(r.crcHistory, r.crc.crcReg), dHistory := Mirror(c.d) + r.dHistory[..24])
  }

  /** One clock edge of the checker. */
  function CheckStep(r: CheckRegs, reset: bool, c: Cycle): CheckRegs {
    var crc' := CrcStep(r.crc, reset, c.d, r.calculate, r.init, r.dValid);
    (if reset then r.(crcOk := false, state := 0)
     else if r.state == 0 then CheckIdle(r, c)
     else if r.state == 1 then CheckPreamble(r, c)
     else if r.state == 2 then CheckData(r, c)
     else if !c.en then r.(state := 0)
     else r).(crc := crc')
  }

  class Checker {
    var state: nat
    var calculate: bool
    var init: bool
    var dValid: bool
    var preambleIndex: nat
    var crcHistory: CrcHistory
    var dHistory: Bits32
    var crcOk: bool
    var preambleOk: bool
    const crc: Crc8

    /** Registers power up with whatever is in them. */
    constructor (crc: Crc8, r: CheckRegs)
      ensures this.crc == crc && Regs() == r.(crc := crc.Regs())
    {
      this.crc := crc;
      state, calculate, init, dValid, preambleIndex := r.state, r.calculate, r.init, r.dValid, r.preambleIndex;
      crcHistory, dHistory, crcOk, preambleOk := r.crcHistory, r.dHistory, r.crcOk, r.preambleOk;
    }

    function Regs(): CheckRegs
      reads this, crc
    {
      CheckRegs(state, calculate, init, dValid, preambleIndex, crcHistory, dHistory, crc.Regs(), crcOk, preambleOk)
    }

    method StepIdle(c: Cycle)
      modifies this
      ensures Regs() == CheckIdle(old(Regs()), c)
    {
      crcOk, preambleOk := false, false;
      init, calculate, dValid := true, false, false;
      preambleIndex := 1;
      state := 0;
      if c.en {
        if c.d == 0x55 {
          state := 1;
        } else {
          state := 3;
        }
      }
    }

    method StepPreamble(c: Cycle)
      requires state == 1
      modifies this
      ensures Regs() == CheckPreamble(old(Regs()), c)
    {
      if !c.en {
        state := 0;
      } else if c.d != 0x55 && c.d != 0xD5 {
        state := 3;
      } else if preambleIndex < 6 && c.d == 0xD5 {
        state := 3;
      } else if preambleIndex >= 7 && c.d == 0x55 {
        state := 3;
      } else if c.d == 0xD5 {
        preambleOk, state := true, 2;
        init, calculate, dValid := false, true, true;
      }
      preambleIndex := (preambleIndex + 1) % 32;
    }

    method StepData(c: Cycle)
      requires state == 2
      modifies this
      ensures Regs() == CheckData(old(Regs()), c)
    {
      if !c.en {
        init, calculate, dValid := true, false, false;
        if crcHistory[3] == dHistory {
          crcOk := true;
        }
        state := 0;
      } else {
        crcHistory := Push(crcHistory, crc.crcReg);
        dHistory := Mirror(c.d) + dHistory[..24];
      }
    }

    method Step(reset: bool, c: Cycle)
      modifies this, crc
      ensures Regs() == CheckStep(old(Regs()), reset, c)
    {
      hide CrcStep;
      hide CheckIdle;
      hide CheckPreamble;
      hide CheckData;
      var calculateNow, initNow, dValidNow := calculate, init, dValid;
      if reset {
        crcOk, state := false, 0;
      } else if state == 0 {
        StepIdle(c);
      } else if state == 1 {
        StepPreamble(c);
      } else if state == 2 {
        StepData(c);
      } else if !c.en {
        state := 0;
      }
      crc.Step(reset, c.d, calculateNow, initNow, dValidNow);
    }
  }

  // ---- what the checker remembers ----

  /** An octet the checker shifted in, with the register of the CRC circuit just before it. */
  datatype Shifted = Shifted(crc: Bits32, d: Octet)

  /** What the data octets m leave in the histories. */
  function Entries(m: seq<Octet>): (s: seq<Shifted>)
    ensures |s| == |m|
  {
    if m == [] then [] else Entries(m[..|m| - 1]) + [Shifted(Crc(m[..|m| - 1]), m[|m| - 1])]
  }

  /** Everything shifted in during the frames, on top of what was there at the beginning. */
  function Shifts(base: seq<Shifted>, frames: seq<seq<Octet>>): (s: seq<Shifted>)
    ensures |s| >= |base|
  {
    if frames == [] then base
    else Shifts(base, frames[..|frames| - 1]) + Entries(Data(frames[|frames| - 1]))
  }

  function OctetsOf(pipe: seq<Shifted>): (m: seq<Octet>)
    ensures |m| == |pipe|
  {
    seq(|pipe|, i requires 0 <= i < |pipe| => pipe[i].d)
  }

  /** The last four octets ever shifted in are the frame check sequence of the register before them. */
  predicate Verdict(pipe: seq<Shifted>)
    requires |pipe| >= 4
  {
    OctetsOf(pipe)[|pipe| - 4..] == Fcs(pipe[|pipe| - 4].crc)
  }

  function DHistory(q0: Octet, q1: Octet, q2: Octet, q3: Octet): Bits32 {
    Mirror(q3) + Mirror(q2) + Mirror(q1) + Mirror(q0)
  }

  lemma MirrorIsFcsOctet(c: Bits32, q: Octet, j: nat)
    requires j < 4
    ensures Mirror(q) == c[24 - 8 * j..32 - 8 * j] <==> q == FcsOctet(c, j)
  {
    var f := FcsOctetBits(c, j);
    var part := c[24 - 8 * j..32 - 8 * j];
    assert forall i :: 0 <= i < 8 ==> f[i] == !part[7 - i];
    assert forall i :: 0 <= i < 8 ==> part[i] == !f[7 - i];
    assert Bits(q) == f <==> Mirror(q) == part by {
      assert forall i :: 0 <= i < 8 ==> Mirror(q)[i] == !Bits(q)[7 - i];
      assert forall i :: 0 <= i < 8 ==> Bits(q)[i] == !Mirror(q)[7 - i];
    }
    BitsOfOctet(f);
    OctetOfBits(q);
  }

  /** The comparison in the checker is the comparison with the frame check sequence. */
  lemma HistoriesMatch(c: Bits32, q0: Octet, q1: Octet, q2: Octet, q3: Octet)
    ensures c == DHistory(q0, q1, q2, q3) <==> [q0, q1, q2, q3] == Fcs(c)
  {
    MirrorIsFcsOctet(c, q0, 0);
    MirrorIsFcsOctet(c, q1, 1);
    MirrorIsFcsOctet(c, q2, 2);
    MirrorIsFcsOctet(c, q3, 3);
    hide FcsOctet;
    FourParts(c, Mirror(q3), Mirror(q2), Mirror(q1), Mirror(q0));
    hide Mirror;
  }

  lemma FourParts(c: Bits32, a0: Bits8, a1: Bits8, a2: Bits8, a3: Bits8)
    ensures c == a0 + a1 + a2 + a3 <==> c[0..8] == a0 && c[8..16] == a1 && c[16..24] == a2 && c[24..32] == a3
  {
    assert c == c[0..8] + c[8..16] + c[16..24] + c[24..32];
    var h := a0 + a1 + a2 + a3;
    assert h[0..8] == a0 && h[8..16] == a1 && h[16..24] == a2 && h[24..32] == a3;
  }

  /** The history registers hold the last four entries. */
  ghost predicate HistoryInv(r: CheckRegs, pipe: seq<Shifted>) {
    var k := |pipe|;
    && k >= 4
    && r.crcHistory == [pipe[k - 1].crc, pipe[k - 2].crc, pipe[k - 3].crc, pipe[k - 4].crc]
    && r.dHistory == DHistory(pipe[k - 4].d, pipe[k - 3].d, pipe[k - 2].d, pipe[k - 1].d)
  }

  /** The control registers follow the frame being received. */
  ghost predicate ControlInv(r: CheckRegs, w: Wire) {
    && (w.cur == [] ==> r.state == 0)
    && (w.cur != [] ==> r.state == Recognised(w.cur) && !r.crcOk)
    && (r.state == 1 ==> r.preambleIndex == |w.cur| && r.init)
    && (r.state == 1 || r.state == 3 ==> !r.preambleOk)
    && (r.state == 2 ==> !r.init && r.calculate && r.dValid && r.preambleOk && r.crc.crcReg == Crc(Data(w.cur)))
    && (w.ended ==> w.cur == [] && w.done != [] && r.preambleOk == GoodPreamble(w.done[|w.done| - 1]))
    && (w.cur == [] && !w.ended ==> !r.crcOk && !r.preambleOk)
  }

  /** The verdict on the last of the frames. */
  predicate Accepted(base: seq<Shifted>, frames: seq<seq<Octet>>)
    requires |base| >= 4 && frames != []
  {
    GoodPreamble(frames[|frames| - 1]) && Verdict(Shifts(base, frames))
  }

  /** The invariant that ties the registers to the line: in particular `crc_ok` is 1 in
    the one cycle after a frame has ended with a good verdict, and in no other. */
  ghost predicate CheckInv(r: CheckRegs, base: seq<Shifted>, w: Wire) {
    && |base| >= 4
    && HistoryInv(r, AllShifts(base, w))
    && ControlInv(r, w)
    && (w.ended ==> r.crcOk == Accepted(base, w.done))
  }

  lemma ShiftHistory(r: CheckRegs, pipe: seq<Shifted>, r': CheckRegs, d: Octet)
    requires HistoryInv(r, pipe)
    requires r'.crcHistory == Push(r.crcHistory, r.crc.crcReg)
    requires r'.dHistory == Mirror(d) + r.dHistory[..24]
    ensures HistoryInv(r', pipe + [Shifted(r.crc.crcReg, d)])
  {
    hide Mirror;
  }

  lemma CrcOfOneMore(m: seq<Octet>, d: Octet)
    ensures Crc(m + [d]) == NextCrc(Crc(m), d)
  {
    assert (m + [d])[..|m|] == m;
  }

  lemma CheckStepControlIdle(r: CheckRegs, w: Wire, c: Cycle)
    requires ControlInv(r, w) && !c.en
    ensures ControlInv(CheckStep(r, false, c), WireStep(w, c))
  {
    assert GoodPreamble(w.cur) <==> r.state == 2;
    hide NextCrc;
    hide Recognised;
    hide GoodPreamble;
  }

  lemma CheckStepControlFirst(r: CheckRegs, w: Wire, c: Cycle)
    requires ControlInv(r, w) && c.en && w.cur == []
    ensures ControlInv(CheckStep(r, false, c), WireStep(w, c))
  {
    hide NextCrc;
    RecognisedFirst(c.d);
    hide Recognised;
    assert w.cur + [c.d] == [c.d];
  }

  lemma CheckStepControlNext(r: CheckRegs, w: Wire, c: Cycle)
    requires ControlInv(r, w) && c.en && w.cur != []
    ensures ControlInv(CheckStep(r, false, c), WireStep(w, c))
  {
    hide NextCrc;
    hide Mirror;
    assert r.state == 1 ==> |w.cur| <= 7;
    RecognisedStep(w.cur, c.d);
    CrcOfOneMore(Data(w.cur), c.d);
    hide Recognised;
    hide Data;
    assert |w.cur + [c.d]| == |w.cur| + 1;
  }

  /** Everything shifted in up to and including the frame in progress. */
  function AllShifts(base: seq<Shifted>, w: Wire): seq<Shifted> {
    Shifts(base, w.done) + Entries(Data(w.cur))
  }

  lemma {:induction false} EntriesOfOneMore(m: seq<Octet>, d: Octet)
    ensures Entries(m + [d]) == Entries(m) + [Shifted(Crc(m), d)]
  {
    hide NextCrc;
    assert (m + [d])[..|m|] == m;
  }

  lemma AllShiftsStep(base: seq<Shifted>, w: Wire, c: Cycle)
    ensures AllShifts(base, WireStep(w, c)) == AllShifts(base, w) +
      (if c.en && GoodPreamble(w.cur) then [Shifted(Crc(Data(w.cur)), c.d)] else [])
  {
    hide Crc;
    hide Data;
    hide GoodPreamble;
    hide Entries;
    var p := Shifts(base, w.done);
    NoEntries();
    if c.en {
      DataOfOneMore(w.cur, c.d);
      EntriesOfOneMore(Data(w.cur), c.d);
      assert p + (Entries(Data(w.cur)) + [Shifted(Crc(Data(w.cur)), c.d)])
          == p + Entries(Data(w.cur)) + [Shifted(Crc(Data(w.cur)), c.d)];
    } else if w.cur != [] {
      assert (w.done + [w.cur])[..|w.done|] == w.done;
    }
    assert AllShifts(base, w) + [] == AllShifts(base, w);
  }

  lemma NoEntries()
    ensures Data([]) == [] && Entries([]) == []
  {
  }

  lemma DataOfOneMore(f: seq<Octet>, d: Octet)
    ensures Data(f + [d]) == if GoodPreamble(f) then Data(f) + [d] else []
    ensures !GoodPreamble(f) ==> Data(f) == []
  {
    if f == [] {
      RecognisedFirst(d);
      assert f + [d] == [d];
    } else {
      RecognisedStep(f, d);
    }
  }

  lemma InDataAfterPreamble(r: CheckRegs, w: Wire)
    requires ControlInv(r, w)
    ensures GoodPreamble(w.cur) <==> r.state == 2
  {
    hide NextCrc;
    assert w.cur == [] ==> !GoodPreamble(w.cur);
  }

  lemma CheckStepHistory(r: CheckRegs, base: seq<Shifted>, w: Wire, c: Cycle)
    requires CheckInv(r, base, w)
    ensures HistoryInv(CheckStep(r, false, c), AllShifts(base, WireStep(w, c)))
  {
    hide NextCrc;
    hide Mirror;
    hide DHistory;
    hide Data;
    hide WireStep;
    var r' := CheckStep(r, false, c);
    AllShiftsStep(base, w, c);
    InDataAfterPreamble(r, w);
    hide GoodPreamble;
    hide AllShifts;
    if r.state == 2 && c.en {
      ShiftHistory(r, AllShifts(base, w), r', c.d);
    } else {
      assert r'.dHistory == r.dHistory && r'.crcHistory == r.crcHistory;
      assert AllShifts(base, WireStep(w, c)) == AllShifts(base, w);
    }
  }

  /** The comparison of the histories is the verdict on what has been shifted in. */
  lemma HistoriesGiveVerdict(r: CheckRegs, pipe: seq<Shifted>)
    requires HistoryInv(r, pipe)
    ensures r.crcHistory[3] == r.dHistory <==> Verdict(pipe)
  {
    hide Fcs;
    hide DHistory;
    var k := |pipe|;
    HistoriesMatch(r.crcHistory[3], pipe[k - 4].d, pipe[k - 3].d, pipe[k - 2].d, pipe[k - 1].d);
    LastFour(OctetsOf(pipe));
  }

  lemma VerdictAtEnd(r: CheckRegs, base: seq<Shifted>, w: Wire, c: Cycle)
    requires CheckInv(r, base, w) && w.cur != [] && !c.en
    ensures CheckStep(r, false, c).crcOk == Accepted(base, w.done + [w.cur])
  {
    hide CrcStep;
    hide HistoryInv;
    hide Verdict;
    hide Crc;
    hide Entries;
    hide Data;
    hide GoodPreamble;
    InDataAfterPreamble(r, w);
    assert (w.done + [w.cur])[..|w.done|] == w.done;
    assert Shifts(base, w.done + [w.cur]) == AllShifts(base, w);
    HistoriesGiveVerdict(r, AllShifts(base, w));
  }

  lemma CheckStepInv(r: CheckRegs, base: seq<Shifted>, w: Wire, c: Cycle)
    requires CheckInv(r, base, w)
    ensures CheckInv(CheckStep(r, false, c), base, WireStep(w, c))
  {
    if !c.en {
      CheckStepControlIdle(r, w, c);
    } else if w.cur == [] {
      CheckStepControlFirst(r, w, c);
    } else {
      CheckStepControlNext(r, w, c);
    }
    CheckStepHistory(r, base, w, c);
    if w.cur != [] && !c.en {
      VerdictAtEnd(r, base, w, c);
    }
  }

  // ---- whole runs ----

  function CheckRun(r: CheckRegs, cs: seq<Cycle>): CheckRegs {
    if cs == [] then r else CheckStep(CheckRun(r, cs[..|cs| - 1]), false, cs[|cs| - 1])
  }

  lemma {:induction false} CheckRunInv(r: CheckRegs, base: seq<Shifted>, w: Wire, cs: seq<Cycle>)
    requires CheckInv(r, base, w)
    ensures CheckInv(CheckRun(r, cs), base, WireRun(w, cs))
  {
    if cs != [] {
      var front := cs[..|cs| - 1];
      CheckRunInv(r, base, w, front);
      CheckStepInv(CheckRun(r, front), base, WireRun(w, front), cs[|cs| - 1]);
    }
  }

  /** The histories as they powered up, read as four shifted octets. */
  function PowerUp(r: CheckRegs): seq<Shifted> {
    [Shifted(r.crcHistory[3], FcsOctet(r.dHistory, 0)), Shifted(r.crcHistory[2], FcsOctet(r.dHistory, 1)),
     Shifted(r.crcHistory[1], FcsOctet(r.dHistory, 2)), Shifted(r.crcHistory[0], FcsOctet(r.dHistory, 3))]
  }

  lemma PowerUpHistory(r: CheckRegs)
    ensures HistoryInv(r, PowerUp(r))
  {
    hide FcsOctet;
    var q := PowerUp(r);
    HistoriesMatch(r.dHistory, q[0].d, q[1].d, q[2].d, q[3].d);
    hide DHistory;
  }

  /** After reset, or any cycle in which the checker is in state 0 and its outputs are
    low, an idle line keeps it so; two idle cycles bring any registers there. */
  lemma IdleEstablishesInv(r: CheckRegs, c: Cycle, d: Cycle)
    requires !c.en && !d.en
    ensures var r' := CheckStep(CheckStep(r, false, c), false, d);
      CheckInv(r', PowerUp(r'), SILENT)
  {
    hide NextCrc;
    var r' := CheckStep(CheckStep(r, false, c), false, d);
    PowerUpHistory(r');
    hide DHistory;
    assert PowerUp(r') + Entries(Data([])) == PowerUp(r');
  }

  /** A reset and an idle cycle do so too. */
  lemma ResetEstablishesInv(r: CheckRegs, c: Cycle, d: Cycle)
    requires !d.en
    ensures var s := CheckStep(CheckStep(r, true, c), false, d); CheckInv(s, PowerUp(s), SILENT)
  {
    hide NextCrc;
    var s := CheckStep(CheckStep(r, true, c), false, d);
    PowerUpHistory(s);
    hide DHistory;
    assert PowerUp(s) + Entries(Data([])) == PowerUp(s);
  }

  lemma {:induction false} EntryAt(m: seq<Octet>, i: nat)
    requires i < |m|
    ensures Entries(m)[i] == Shifted(Crc(m[..i]), m[i])
    decreases |m|
  {
    hide NextCrc;
    if i < |m| - 1 {
      EntryAt(m[..|m| - 1], i);
      assert m[..|m| - 1][..i] == m[..i];
    }
  }

  lemma {:induction false} OctetsOfEntries(prior: seq<Shifted>, m: seq<Octet>)
    ensures OctetsOf(prior + Entries(m)) == OctetsOf(prior) + m
  {
    hide NextCrc;
    forall i | 0 <= i < |m|
      ensures Entries(m)[i].d == m[i]
    {
      EntryAt(m, i);
    }
  }

  lemma LastFour<T>(s: seq<T>)
    requires |s| >= 4
    ensures s[|s| - 4..] == [s[|s| - 4], s[|s| - 3], s[|s| - 2], s[|s| - 1]]
  {
  }

  lemma DropConcat<T>(a: seq<T>, b: seq<T>, k: nat)
    requires k <= |b|
    ensures (a + b)[|a| + k..] == b[k..]
  {
  }

  /** With at least four data octets in the frame, the verdict is about this frame alone. */
  lemma {:induction false} VerdictIsFcsValid(prior: seq<Shifted>, m: seq<Octet>)
    requires |m| >= 4
    ensures Verdict(prior + Entries(m)) <==> FcsValid(m)
  {
    hide NextCrc;
    hide Fcs;
    var n, p := |m|, prior + Entries(m);
    EntryAt(m, n - 4);
    OctetsOfEntries(prior, m);
    assert p[|p| - 4] == Entries(m)[n - 4];
    DropConcat(OctetsOf(prior), m, n - 4);
  }

  /** With fewer than four, it is about the last octets of the frames before as well. */
  predicate StaleVerdict(prior: seq<Shifted>, m: seq<Octet>)
    requires |prior| >= 4 && |m| < 4
  {
    var k := |prior| - (4 - |m|);
    OctetsOf(prior)[k..] + m == Fcs(prior[k].crc)
  }

  lemma {:induction false} VerdictIsStale(prior: seq<Shifted>, m: seq<Octet>)
    requires |prior| >= 4 && |m| < 4
    ensures Verdict(prior + Entries(m)) <==> StaleVerdict(prior, m)
  {
    hide NextCrc;
    hide Fcs;
    hide Verdict;
    hide StaleVerdict;
    OctetsOfEntries(prior, m);
    VerdictOfShort(prior, Entries(m), m);
  }

  lemma VerdictOfShort(prior: seq<Shifted>, entries: seq<Shifted>, m: seq<Octet>)
    requires |prior| >= 4 && |entries| == |m| < 4 && OctetsOf(prior + entries) == OctetsOf(prior) + m
    ensures Verdict(prior + entries) <==> StaleVerdict(prior, m)
  {
    hide Fcs;
    hide OctetsOf;
    var k, p := |prior| - (4 - |m|), prior + entries;
    assert p[k] == prior[k];
    DropInFirst(OctetsOf(prior), m, k);
  }

  lemma DropInFirst<T>(a: seq<T>, b: seq<T>, k: nat)
    requires k <= |a|
    ensures (a + b)[k..] == a[k..] + b
  {
  }

  /** Whatever was on the line before, and however short the gap: in the cycle after a
    frame the checker reports whether its preamble was good, and whether its data ends
    with its frame check sequence - provided at least four octets follow the preamble.
    The histories are not cleared between frames, so for a shorter frame the verdict
    depends on the octets of the frames before it. */
  lemma {:induction false} CheckerDecides(r: CheckRegs, base: seq<Shifted>, w: Wire, before: seq<Cycle>,
                                          f: seq<Octet>, idle: Cycle)
    requires CheckInv(r, base, w)
    requires WireRun(w, before).cur == [] && f != [] && !idle.en
    ensures
      var r' := CheckRun(r, before + FrameCycles(f) + [idle]);
      var prior := Shifts(base, WireRun(w, before).done);
      && r'.preambleOk == GoodPreamble(f)
      && (!GoodPreamble(f) ==> !r'.crcOk)
      && (GoodPreamble(f) && |Data(f)| >= 4 ==> (r'.crcOk <==> FcsValid(Data(f))))
      && (GoodPreamble(f) && |Data(f)| < 4 ==> (r'.crcOk <==> StaleVerdict(prior, Data(f))))
  {
    var w0 := WireRun(w, before);
    var all := before + FrameCycles(f) + [idle];
    WireRunConcat(w, before, FrameCycles(f));
    WireRunFrame(w0, f);
    WireRunSnoc(w, before + FrameCycles(f), idle);
    var w' := Wire(w0.done + [f], [], true);
    assert WireRun(w, all) == w';
    CheckRunInv(r, base, w, all);
    var prior := Shifts(base, w0.done);
    assert w'.done[..|w0.done|] == w0.done;
    assert Shifts(base, w'.done) == prior + Entries(Data(f));
    if |Data(f)| >= 4 {
      VerdictIsFcsValid(prior, Data(f));
    } else {
      VerdictIsStale(prior, Data(f));
    }
  }

  /** If a frame is accepted, then no frame is that differs from it only within 32 consecutive
    bits after the start frame delimiter - data, frame check sequence or both - by this
    checker or any other, after whatever other frames. */
  lemma {:induction false} AlteredFrameIsRejected(r: CheckRegs, base: seq<Shifted>, w: Wire, before: seq<Cycle>,
                                                  f: seq<Octet>,
                               r': CheckRegs, base': seq<Shifted>, w': Wire, before': seq<Cycle>, f': seq<Octet>,
                               a: seq<bv1>, x: seq<bv1>, y: seq<bv1>, b: seq<bv1>, idle: Cycle)
    requires CheckInv(r, base, w) && WireRun(w, before).cur == []
    requires CheckInv(r', base', w') && WireRun(w', before').cur == [] && f' != [] && !idle.en
    requires |Data(f)| >= 4 && BitStream(Data(f)) == a + x + b && BitStream(Data(f')) == a + y + b
    requires |x| == |y| <= 32 && x != y
    requires CheckRun(r, before + FrameCycles(f) + [idle]).crcOk
    ensures !CheckRun(r', before' + FrameCycles(f') + [idle]).crcOk
  {
    hide CheckInv;
    hide CheckStep;
    hide FcsValid;
    hide GoodPreamble;
    assert |Data(f')| == |Data(f)|;
    CheckerDecides(r, base, w, before, f, idle);
    CheckerDecides(r', base', w', before', f', idle);
    BitBurstIsDetected(Data(f), Data(f'), a, x, y, b);
  }

  /** `crc_ok` is never 1 except in the cycle right after a frame. */
  lemma {:induction false} CheckerIsSilentOtherwise(r: CheckRegs, base: seq<Shifted>, w: Wire, cs: seq<Cycle>)
    requires CheckInv(r, base, w) && CheckRun(r, cs).crcOk
    ensures WireRun(w, cs).ended
  {
    CheckRunInv(r, base, w, cs);
  }
}
