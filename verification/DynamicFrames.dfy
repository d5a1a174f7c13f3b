/** Which octet of a dynamic frame goes out when, and what the parser makes of it. */
module DynamicFrames {
  import opened Arithmetic
  import opened Octets
  import opened Gmii
  import opened BramIo
  import opened TestframeParser
  import opened TrafficGenerator
  import opened GeneratorStream
  import opened GeneratorRuns

  // ---- on the line ----

  lemma {:induction false} NumberInBody(c: Config, mem: Memory, first: Word, k: nat, stamp: Time, i: nat)
    requires Usable(c) && c.dynamic && i < 8
    ensures Frame(c, mem, first, k, stamp)[Size(c) + i] == k % W64 / Power256(7 - i) % 256
  {
    TrailerOctets(c, mem, first, k, stamp, i);
    BigEndianOctet(k % W64, 8, i);
    hide Frame;
    hide BigEndian;
    hide StampOctets;
    hide Power256;
  }

  lemma {:induction false} SecondsInBody(c: Config, mem: Memory, first: Word, k: nat, stamp: Time, i: nat)
    requires Usable(c) && c.dynamic && i < 6
    ensures Frame(c, mem, first, k, stamp)[Size(c) + 8 + i] == stamp.sec / Power256(5 - i) % 256
  {
    TrailerOctets(c, mem, first, k, stamp, 8 + i);
    BigEndianOctet(stamp.sec, 6, i);
    hide Frame;
    hide BigEndian;
    hide Power256;
  }

  lemma {:induction false} NanosecondsInBody(c: Config, mem: Memory, first: Word, k: nat, stamp: Time, i: nat)
    requires Usable(c) && c.dynamic && i < 4
    ensures Frame(c, mem, first, k, stamp)[Size(c) + 14 + i] == stamp.nsec / Power256(3 - i) % 256
  {
    TrailerOctets(c, mem, first, k, stamp, 14 + i);
    BigEndianOctet(stamp.nsec, 4, i);
    hide Frame;
    hide BigEndian;
    hide Power256;
  }

  // After the template of frame k come the eight octets of its number, the six of the seconds
  // and the four of the nanoseconds that the clock shows when the frame begins, each with the
  // most significant octet first.

  lemma {:induction false} NumberOnLine(g: Generator, c: Config, mem: Memory, times: seq<Time>, k: nat, i: nat)
    requires Usable(c) && c.dynamic && Ready(g, c, mem) && Sent(c, k) && i < 8
    requires FrameStart(c, k) + FrameLength(c) <= |times|
    ensures Output(g, c, mem, times, FrameStart(c, k) + Size(c) + i) == Cycle(true, k % W64 / Power256(7 - i) % 256)
  {
    hide Ready;
    hide Output;
    hide Frame;
    hide SlotStart;
    hide FirstWord;
    hide Gap;
    NumberInBody(c, mem, FirstWord(c, mem, k), k, StampOf(c, times, k), i);
    hide Power256;
    SendsFrames(g, c, mem, times, k, 2 + Size(c) + i);
  }

  lemma {:induction false} SecondsOnLine(g: Generator, c: Config, mem: Memory, times: seq<Time>, k: nat, i: nat)
    requires Usable(c) && c.dynamic && Ready(g, c, mem) && Sent(c, k) && i < 6
    requires FrameStart(c, k) + FrameLength(c) <= |times|
    ensures Output(g, c, mem, times, FrameStart(c, k) + Size(c) + 8 + i)
         == Cycle(true, times[FrameStart(c, k)].sec / Power256(5 - i) % 256)
  {
    hide Ready;
    hide Output;
    hide Frame;
    hide SlotStart;
    hide FirstWord;
    hide Gap;
    SecondsInBody(c, mem, FirstWord(c, mem, k), k, StampOf(c, times, k), i);
    hide Power256;
    SendsFrames(g, c, mem, times, k, 2 + Size(c) + 8 + i);
  }

  lemma {:induction false} NanosecondsOnLine(g: Generator, c: Config, mem: Memory, times: seq<Time>, k: nat, i: nat)
    requires Usable(c) && c.dynamic && Ready(g, c, mem) && Sent(c, k) && i < 4
    requires FrameStart(c, k) + FrameLength(c) <= |times|
    ensures Output(g, c, mem, times, FrameStart(c, k) + Size(c) + 14 + i)
         == Cycle(true, times[FrameStart(c, k)].nsec / Power256(3 - i) % 256)
  {
    hide Ready;
    hide Output;
    hide Frame;
    hide SlotStart;
    hide FirstWord;
    hide Gap;
    NanosecondsInBody(c, mem, FirstWord(c, mem, k), k, StampOf(c, times, k), i);
    hide Power256;
    SendsFrames(g, c, mem, times, k, 2 + Size(c) + 14 + i);
  }

  // ---- in the parser ----

  /** Octet i of the n that begin m before the end of f is a digit of v, most significant first. */
  predicate IsDigit(v: nat, f: seq<Octet>, m: nat, n: nat, i: nat)
    requires i < n <= m <= |f|
  {
    f[|f| - m + i] == v / Power256(n - 1 - i) % 256
  }

  ghost predicate HasDigits(v: nat, f: seq<Octet>, m: nat, n: nat)
    requires n <= m <= |f|
  {
    v < Power256(n) && forall i :: 0 <= i < n ==> IsDigit(v, f, m, n, i)
  }

  lemma {:induction false} FieldOf(f: seq<Octet>, m: nat, n: nat)
    requires 0 < n <= m <= |f|
    ensures HasDigits(FromBigEndian(f[|f| - m..|f| - m + n]), f, m, n)
  {
    var s := f[|f| - m..|f| - m + n];
    FromBigEndianRoundTrip(s);
    forall i | 0 <= i < n
      ensures IsDigit(FromBigEndian(s), f, m, n, i)
    {
      FromBigEndianOctet(s, i);
    }
    hide FromBigEndian;
    hide Power256;
    hide IsDigit;
  }

  lemma SliceOfRest(f: seq<Octet>, k: nat, a: nat, b: nat)
    requires k <= |f| && a <= b <= |f| - k
    ensures f[k..][a..b] == f[k + a..k + b]
  {
    var x, y := f[k..][a..b], f[k + a..k + b];
    forall i | 0 <= i < b - a
      ensures x[i] == y[i]
    {
      assert x[i] == f[k..][a + i] == f[k + a + i];
    }
  }

  lemma FieldsOfFrame(f: seq<Octet>, m: nat, n: nat)
    requires n <= m <= |Data(f)|
    ensures |Data(f)| <= |f| && Data(f)[|Data(f)| - m..|Data(f)| - m + n] == f[|f| - m..|f| - m + n]
  {
    var k := if GoodPreamble(f) then DataStart(f) else |f|;
    assert Data(f) == f[k..];
    hide Data;
    hide DataStart;
    hide GoodPreamble;
    SliceOfRest(f, k, |f| - k - m, |f| - k - m + n);
  }

  lemma FieldHasDigits(f: seq<Octet>, m: nat, n: nat)
    requires 0 < n <= m <= |Data(f)|
    ensures |Data(f)| <= |f| && HasDigits(FromBigEndian(Data(f)[|Data(f)| - m..|Data(f)| - m + n]), f, m, n)
  {
    FieldsOfFrame(f, m, n);
    hide Data;
    hide FromBigEndian;
    hide HasDigits;
    FieldOf(f, m, n);
  }

  /** The number and the time that the parser reports after a test frame have the octets 22 to
    15, 14 to 9 and 8 to 5 before the end of the frame as their digits, most significant first. */
  lemma {:induction false} FieldsAreRead(r: ParserRegs, w: Wire, before: seq<Cycle>, f: seq<Octet>, idle: Cycle)
    requires ParserInv(r, w) && WireRun(w, before).cur == [] && f != [] && !idle.en
    requires ParseRun(r, before + FrameCycles(f) + [idle]).testframeMatch
    ensures |f| >= 38
    ensures var p := ParseRun(r, before + FrameCycles(f) + [idle]);
      && HasDigits(p.sequenceNum, f, 22, 8)
      && HasDigits(p.timestamp.sec, f, 14, 6)
      && HasDigits(p.timestamp.nsec, f, 8, 4)
  {
    ParserDecides(r, w, before, f, idle);
    hide ParseRun;
    FieldHasDigits(f, 22, 8);
    FieldHasDigits(f, 14, 6);
    FieldHasDigits(f, 8, 4);
    hide HasDigits;
    hide Data;
    hide FromBigEndian;
  }
}
