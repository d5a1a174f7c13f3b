/** The GMII line: cycles, preambles and frames. */
module Gmii {
  import opened Arithmetic
  import opened Octets

  /** One clock cycle on the line. */
  datatype Cycle = Cycle(en: bool, d: Octet)

  const IDLE: Cycle := Cycle(false, 0)

  datatype Time = Time(sec: nat, nsec: nat)

  function Nanos(t: Time): nat {
    t.sec * BILLION + t.nsec
  }

  /** A time in the form of section 5.3.3 of IEEE 1588-2008. */
  predicate WellFormed(t: Time) {
    t.sec < W48 && t.nsec < BILLION
  }

  // ---- the preamble ----

  predicate Preamble(s: seq<Octet>, n: nat) {
    n <= |s| && forall i :: 0 <= i < n ==> s[i] == 0x55
  }

  /** Where the data starts in a frame that begins with six or seven octets 0x55 and
    then 0xD5; 0 in every other frame. */
  function DataStart(s: seq<Octet>): (n: nat)
    ensures n <= |s|
  {
    if |s| >= 7 && Preamble(s, 6) && s[6] == 0xD5 then 7
    else if |s| >= 8 && Preamble(s, 7) && s[7] == 0xD5 then 8
    else 0
  }

  predicate GoodPreamble(s: seq<Octet>) {
    DataStart(s) > 0
  }

  /** The octets after the start frame delimiter. */
  function Data(s: seq<Octet>): seq<Octet> {
    if GoodPreamble(s) then s[DataStart(s)..] else []
  }

  /** Six or seven octets 0x55 and then 0xD5; everything after them is data. */
  lemma DataFollowsPreamble(s: seq<Octet>)
    ensures |s| >= 7 && s[..7] == [0x55, 0x55, 0x55, 0x55, 0x55, 0x55, 0xD5] ==> GoodPreamble(s) && Data(s) == s[7..]
    ensures |s| >= 8 && s[..8] == [0x55, 0x55, 0x55, 0x55, 0x55, 0x55, 0x55, 0xD5]
        ==> GoodPreamble(s) && Data(s) == s[8..]
    ensures GoodPreamble(s) ==>
              || (|s| >= 7 && s[..7] == [0x55, 0x55, 0x55, 0x55, 0x55, 0x55, 0xD5])
              || (|s| >= 8 && s[..8] == [0x55, 0x55, 0x55, 0x55, 0x55, 0x55, 0x55, 0xD5])
    ensures !GoodPreamble(s) ==> Data(s) == []
  {
    if |s| >= 7 {
      assert forall i :: 0 <= i < 7 ==> s[..7][i] == s[i];
    }
    if |s| >= 8 {
      assert forall i :: 0 <= i < 8 ==> s[..8][i] == s[i];
    }
  }

  /** What a recogniser has to remember of the octets seen so far: 1 while they may
    still become a preamble, 2 after the start frame delimiter, 3 otherwise. */
  function Recognised(s: seq<Octet>): (n: nat)
    ensures 1 <= n <= 3
  {
    if GoodPreamble(s) then 2 else if Preamble(s, |s|) && |s| <= 7 then 1 else 3
  }

  function AfterPreambleOctet(n: nat, d: Octet): nat {
    if d != 0x55 && d != 0xD5 then 3
    else if n < 6 && d == 0xD5 then 3
    else if n >= 7 && d == 0x55 then 3
    else if d == 0xD5 then 2
    else 1
  }

  /** How one more octet changes it. */
  lemma RecognisedStep(s: seq<Octet>, d: Octet)
    requires s != []
    ensures Recognised(s) == 1 ==> Recognised(s + [d]) == AfterPreambleOctet(|s|, d)
    ensures Recognised(s) == 2 ==> Recognised(s + [d]) == 2 && Data(s + [d]) == Data(s) + [d]
    ensures Recognised(s) == 3 ==> Recognised(s + [d]) == 3
    ensures Recognised(s) == 1 && Recognised(s + [d]) == 2 ==> Data(s + [d]) == []
  {
    var t := s + [d];
    assert forall i :: 0 <= i < |s| ==> t[i] == s[i];
    if Recognised(s) == 1 {
      assert Preamble(t, |s|);
      if d == 0x55 {
        assert Preamble(t, |t|);
        assert !GoodPreamble(t);
      } else {
        assert !Preamble(t, |t|) by { assert t[|s|] == d; }
        if |s| < 6 || d != 0xD5 {
          assert !GoodPreamble(t);
        } else if |s| == 6 {
          assert DataStart(t) == 7;
        } else {
          assert t[6] == 0x55;
          assert DataStart(t) == 8;
        }
      }
    } else if Recognised(s) == 2 {
      assert DataStart(t) == DataStart(s);
    } else {
      assert Preamble(t, 6) && |s| >= 6 ==> Preamble(s, 6);
      assert Preamble(t, 7) && |s| >= 7 ==> Preamble(s, 7);
      assert Preamble(t, |t|) ==> Preamble(s, |s|);
    }
  }

  lemma RecognisedFirst(d: Octet)
    ensures Recognised([d]) == if d == 0x55 then 1 else 3
  {
    assert !GoodPreamble([d]);
    assert Preamble([d], 1) <==> [d][0] == 0x55;
  }

  // ---- frames ----

  /** The line cut into frames: the octets between two idle cycles are a frame. */
  datatype Wire = Wire(done: seq<seq<Octet>>, cur: seq<Octet>, ended: bool)

  const SILENT: Wire := Wire([], [], false)

  function WireStep(w: Wire, c: Cycle): Wire {
    if c.en then Wire(w.done, w.cur + [c.d], false)
    else if w.cur != [] then Wire(w.done + [w.cur], [], true)
    else Wire(w.done, [], false)
  }

  function WireRun(w: Wire, cs: seq<Cycle>): Wire {
    if cs == [] then w else WireStep(WireRun(w, cs[..|cs| - 1]), cs[|cs| - 1])
  }

  lemma {:induction false} WireRunSnoc(w: Wire, cs: seq<Cycle>, c: Cycle)
    ensures WireRun(w, cs + [c]) == WireStep(WireRun(w, cs), c)
  {
    assert (cs + [c])[..|cs|] == cs;
  }

  lemma {:induction false} WireRunConcat(w: Wire, cs: seq<Cycle>, ds: seq<Cycle>)
    ensures WireRun(w, cs + ds) == WireRun(WireRun(w, cs), ds)
    decreases |ds|
  {
    if ds == [] {
      assert cs + ds == cs;
    } else {
      var front := ds[..|ds| - 1];
      assert (cs + ds)[..|cs + ds| - 1] == cs + front;
      WireRunConcat(w, cs, front);
    }
  }

  function FrameCycles(f: seq<Octet>): (cs: seq<Cycle>)
    ensures |cs| == |f|
  {
    seq(|f|, i requires 0 <= i < |f| => Cycle(true, f[i]))
  }

  lemma {:induction false} WireRunFrame(w: Wire, f: seq<Octet>)
    requires w.cur == [] && f != []
    ensures WireRun(w, FrameCycles(f)) == Wire(w.done, f, false)
    decreases |f|
  {
    var front := f[..|f| - 1];
    assert FrameCycles(f) == FrameCycles(front) + [Cycle(true, f[|f| - 1])];
    WireRunSnoc(w, FrameCycles(front), Cycle(true, f[|f| - 1]));
    assert f == front + [f[|f| - 1]];
    if front != [] {
      WireRunFrame(w, front);
    }
  }
}
