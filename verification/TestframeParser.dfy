/** The test frame parser
  (lib/hw/lsi/cores/traffic_analyzer_gmii/hdl/testframe_parser.v). */
module TestframeParser {
  import opened Octets
  import opened Gmii

  /** `testframe_history`; index 0 is the latest octet. */
  type History = s: seq<Octet> | |s| == 22 witness seq(22, _ => 0)

  datatype ParserRegs = ParserRegs(
    state: nat, preambleIndex: nat, dataIndex: nat, history: History,
    testframeMatch: bool, sequenceNum: nat, timestamp: Time)

  /** `{h[from], h[from-1], ..., h[to]}` as a number. */
  function Field(h: History, from: nat, to: nat): nat
    requires to <= from < 22
  {
    FromBigEndian(seq(from - to + 1, i requires 0 <= i < from - to + 1 => h[from - i]))
  }

  function ShiftIn(h: History, d: Octet): History {
    [d] + h[..21]
  }

  function ParseIdle(r: ParserRegs, c: Cycle): ParserRegs {
    r.(testframeMatch := false, sequenceNum := 0, timestamp := Time(0, 0), preambleIndex := 1, dataIndex := 0,
       state := if !c.en then 0 else if c.d == 0x55 then 1 else 3)
  }

  function ParsePreamble(r: ParserRegs, c: Cycle): ParserRegs {
    var t := r.(preambleIndex := (r.preambleIndex + 1) % 32);
    if !c.en then t.(state := 0)
    else if c.d != 0x55 && c.d != 0xD5 then t.(state := 3)
    else if r.preambleIndex < 6 && c.d == 0xD5 then t.(state := 3)
    else if r.preambleIndex >= 7 && c.d == 0x55 then t.(state := 3)
    else if c.d == 0xD5 then t.(state := 2)
    else t
  }

  function ParseData(r: ParserRegs, c: Cycle): ParserRegs {
    if !c.en then
      r.(sequenceNum := Field(r.history, 21, 14),
         timestamp := Time(Field(r.history, 13, 8), Field(r.history, 7, 4)), state := 0)
    else
      r.(history := ShiftIn(r.history, c.d), dataIndex := (r.dataIndex + 1) % 8192,
         testframeMatch := r.testframeMatch || (r.dataIndex == 37 && c.d == 7 && r.history[0] == 0))
  }

  /** One clock edge of the parser. */
  function ParseStep(r: ParserRegs, reset: bool, c: Cycle): ParserRegs {
    if reset then r.(state := 0, testframeMatch := false, sequenceNum := 0, timestamp := Time(0, 0))
    else if r.state == 0 then ParseIdle(r, c)
    else if r.state == 1 then ParsePreamble(r, c)
    else if r.state == 2 then ParseData(r, c)
    else if !c.en then r.(state := 0)
    else r
  }

  class Parser {
    var state: nat
    var preambleIndex: nat
    var dataIndex: nat
    const history: array<Octet>
    var testframeMatch: bool
    var sequenceNum: nat
    var timestamp: Time

    constructor (history: array<Octet>)
      requires history.Length == 22
      ensures this.history == history && Valid()
    {
      this.history := history;
      state, preambleIndex, dataIndex := 0, 0, 0;
      testframeMatch, sequenceNum, timestamp := false, 0, Time(0, 0);
    }

    ghost predicate Valid() {
      history.Length == 22
    }

    function Regs(): ParserRegs
      requires Valid()
      reads this, history
    {
      ParserRegs(state, preambleIndex, dataIndex, history[..], testframeMatch, sequenceNum, timestamp)
    }

    /** The shift of the source's for loop, in place. */
    method ShiftHistory(d: Octet)
      requires Valid()
      modifies history
      ensures history[..] == ShiftIn(old(history[..]), d)
    {
      var i := 21;
      while i > 0
        invariant 0 <= i <= 21
        invariant forall j :: 0 <= j <= i ==> history[j] == old(history[j])
        invariant forall j :: i < j < 22 ==> history[j] == old(history[j - 1])
      {
        history[i] := history[i - 1];
        i := i - 1;
      }
      history[0] := d;
    }

    method Step(reset: bool, c: Cycle)
      requires Valid()
      modifies this, history
      ensures Regs() == ParseStep(old(Regs()), reset, c)
    {
      hide Field;
      if reset {
        state, testframeMatch, sequenceNum, timestamp := 0, false, 0, Time(0, 0);
      } else if state == 0 {
        testframeMatch, sequenceNum, timestamp := false, 0, Time(0, 0);
        preambleIndex, dataIndex := 1, 0;
        if c.en {
          if c.d == 0x55 {
            state := 1;
          } else {
            state := 3;
          }
        }
      } else if state == 1 {
        if !c.en {
          state := 0;
        } else if c.d != 0x55 && c.d != 0xD5 {
          state := 3;
        } else if preambleIndex < 6 && c.d == 0xD5 {
          state := 3;
        } else if preambleIndex >= 7 && c.d == 0x55 {
          state := 3;
        } else if c.d == 0xD5 {
          state := 2;
        }
        preambleIndex := (preambleIndex + 1) % 32;
      } else if state == 2 {
        if !c.en {
          sequenceNum := Field(history[..], 21, 14);
          timestamp := Time(Field(history[..], 13, 8), Field(history[..], 7, 4));
          state := 0;
        } else {
          if dataIndex == 37 && c.d == 7 && history[0] == 0 {
            testframeMatch := true;
          }
          dataIndex := (dataIndex + 1) % 8192;
          ShiftHistory(c.d);
        }
      } else if !c.en {
        state := 0;
      }
    }
  }

  // ---- what the parser reports ----

  /** 00 07 at octets 36 and 37 after the preamble. The octet counter has 13 bits, so in
    longer frames the mark is looked for again every 8192 octets. */
  predicate MarkAt(m: seq<Octet>, i: nat) {
    0 < i < |m| && i % 8192 == 37 && m[i] == 7 && m[i - 1] == 0
  }

  ghost predicate IsTestframe(m: seq<Octet>) {
    exists i: nat :: MarkAt(m, i)
  }

  function SequenceNumOf(m: seq<Octet>): nat
    requires |m| >= 22
  {
    FromBigEndian(m[|m| - 22..|m| - 14])
  }

  function TimestampOf(m: seq<Octet>): Time
    requires |m| >= 22
  {
    Time(FromBigEndian(m[|m| - 14..|m| - 8]), FromBigEndian(m[|m| - 8..|m| - 4]))
  }

  /** The history holds the last octets of the data, as far as there are any. */
  ghost predicate HistoryHolds(h: History, m: seq<Octet>) {
    forall j :: 0 <= j < 22 && j < |m| ==> h[j] == m[|m| - 1 - j]
  }

  ghost predicate Reports(r: ParserRegs, m: seq<Octet>) {
    && (r.testframeMatch <==> IsTestframe(m))
    && (|m| >= 22 ==> r.sequenceNum == SequenceNumOf(m) && r.timestamp == TimestampOf(m))
  }

  ghost predicate ParserInv(r: ParserRegs, w: Wire) {
    && (w.cur == [] ==> r.state == 0)
    && (w.cur != [] ==> r.state == Recognised(w.cur))
    && (r.state == 1 ==> r.preambleIndex == |w.cur| && r.dataIndex == 0)
    && (r.state == 2 ==> r.dataIndex == |Data(w.cur)| % 8192 && HistoryHolds(r.history, Data(w.cur)))
    && (w.cur != [] ==> (r.testframeMatch <==> IsTestframe(Data(w.cur))))
    && (w.ended ==> w.cur == [] && w.done != [] && Reports(r, Data(w.done[|w.done| - 1])))
  }

  lemma NoMark(m: seq<Octet>)
    requires |m| <= 37
    ensures !IsTestframe(m)
  {
  }

  lemma OneMoreOctet(m: seq<Octet>, d: Octet)
    ensures IsTestframe(m + [d]) <==> IsTestframe(m) || MarkAt(m + [d], |m|)
  {
    if IsTestframe(m) {
      var i: nat :| MarkAt(m, i);
      assert MarkAt(m + [d], i);
    }
    if IsTestframe(m + [d]) {
      var i: nat :| MarkAt(m + [d], i);
      assert i < |m| ==> MarkAt(m, i);
    }
  }

  lemma FieldIsSlice(h: History, m: seq<Octet>, from: nat, to: nat)
    requires to <= from < 22 <= |m| && HistoryHolds(h, m)
    ensures Field(h, from, to) == FromBigEndian(m[|m| - 1 - from..|m| - to])
  {
    assert seq(from - to + 1, i requires 0 <= i < from - to + 1 => h[from - i]) == m[|m| - 1 - from..|m| - to];
  }

  lemma ParseStepIdle(r: ParserRegs, w: Wire, c: Cycle)
    requires ParserInv(r, w) && !c.en
    ensures ParserInv(ParseStep(r, false, c), WireStep(w, c))
  {
    if w.cur != [] {
      var m := Data(w.cur);
      if r.state == 2 && |m| >= 22 {
        FieldIsSlice(r.history, m, 21, 14);
        FieldIsSlice(r.history, m, 13, 8);
        FieldIsSlice(r.history, m, 7, 4);
      }
    }
    hide Field;
  }

  lemma ParseStepFirst(r: ParserRegs, w: Wire, c: Cycle)
    requires ParserInv(r, w) && c.en && w.cur == []
    ensures ParserInv(ParseStep(r, false, c), WireStep(w, c))
  {
    RecognisedFirst(c.d);
    NoMark([]);
    assert w.cur + [c.d] == [c.d];
    hide Recognised;
  }

  lemma DataOctet(r: ParserRegs, m: seq<Octet>, d: Octet)
    requires r.dataIndex == |m| % 8192 && HistoryHolds(r.history, m)
    requires r.testframeMatch <==> IsTestframe(m)
    ensures var r' := ParseData(r, Cycle(true, d));
      && r'.dataIndex == |m + [d]| % 8192 && HistoryHolds(r'.history, m + [d])
      && (r'.testframeMatch <==> IsTestframe(m + [d]))
  {
    OneMoreOctet(m, d);
    hide IsTestframe;
  }

  lemma ParseStepNext(r: ParserRegs, w: Wire, c: Cycle)
    requires ParserInv(r, w) && c.en && w.cur != []
    ensures ParserInv(ParseStep(r, false, c), WireStep(w, c))
  {
    assert r.state == 1 ==> |w.cur| <= 7;
    RecognisedStep(w.cur, c.d);
    if r.state == 2 {
      DataOctet(r, Data(w.cur), c.d);
    } else {
      assert Data(w.cur) == [] == Data(w.cur + [c.d]);
      NoMark([]);
    }
    hide Recognised;
    hide Data;
    hide ParseData;
    hide IsTestframe;
    assert |w.cur + [c.d]| == |w.cur| + 1;
  }

  lemma ParseStepInv(r: ParserRegs, w: Wire, c: Cycle)
    requires ParserInv(r, w)
    ensures ParserInv(ParseStep(r, false, c), WireStep(w, c))
  {
    if !c.en {
      ParseStepIdle(r, w, c);
    } else if w.cur == [] {
      ParseStepFirst(r, w, c);
    } else {
      ParseStepNext(r, w, c);
    }
  }

  function ParseRun(r: ParserRegs, cs: seq<Cycle>): ParserRegs {
    if cs == [] then r else ParseStep(ParseRun(r, cs[..|cs| - 1]), false, cs[|cs| - 1])
  }

  lemma {:induction false} ParseRunInv(r: ParserRegs, w: Wire, cs: seq<Cycle>)
    requires ParserInv(r, w)
    ensures ParserInv(ParseRun(r, cs), WireRun(w, cs))
  {
    if cs != [] {
      var front := cs[..|cs| - 1];
      ParseRunInv(r, w, front);
      ParseStepInv(ParseRun(r, front), WireRun(w, front), cs[|cs| - 1]);
    }
  }

  /** In the cycle after a frame the parser says whether it carries the mark of a test
    frame, and if so its sequence number and the time it was sent: a marked frame is
    always long enough for the 22 octet window to lie inside it. */
  lemma {:induction false} ParserDecides(r: ParserRegs, w: Wire, before: seq<Cycle>, f: seq<Octet>, idle: Cycle)
    requires ParserInv(r, w)
    requires WireRun(w, before).cur == [] && f != [] && !idle.en
    ensures
      var r' := ParseRun(r, before + FrameCycles(f) + [idle]);
      && (r'.testframeMatch <==>
            exists i :: 0 < i < |Data(f)| && i % 8192 == 37 && Data(f)[i - 1] == 0 && Data(f)[i] == 7)
      && (r'.testframeMatch ==>
            |Data(f)| >= 38 && r'.sequenceNum == SequenceNumOf(Data(f)) && r'.timestamp == TimestampOf(Data(f)))
  {
    var w0 := WireRun(w, before);
    WireRunConcat(w, before, FrameCycles(f));
    WireRunFrame(w0, f);
    WireRunSnoc(w, before + FrameCycles(f), idle);
    ParseRunInv(r, w, before + FrameCycles(f) + [idle]);
    MarkOf(Data(f));
    if |Data(f)| < 38 {
      NoMark(Data(f));
    }
  }

  lemma MarkOf(m: seq<Octet>)
    ensures IsTestframe(m) <==> exists i :: 0 < i < |m| && i % 8192 == 37 && m[i - 1] == 0 && m[i] == 7
  {
    if IsTestframe(m) {
      var i: nat :| MarkAt(m, i);
      assert m[i - 1] == 0 && m[i] == 7;
    }
    if exists i :: 0 < i < |m| && i % 8192 == 37 && m[i - 1] == 0 && m[i] == 7 {
      var i :| 0 < i < |m| && i % 8192 == 37 && m[i - 1] == 0 && m[i] == 7;
      assert MarkAt(m, i);
    }
  }
}
