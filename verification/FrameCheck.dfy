/** The frame check sequence: what the CRC circuit computes over a whole message. */
module FrameCheck {
  import opened Octets
  import opened EthernetCrc8
  import opened SerialCrc

  // ---- messages ----

  /** The bits of a message in the order in which they are sent. */
  function BitStream(m: seq<Octet>): (s: seq<bv1>)
    ensures |s| == 8 * |m|
  {
    if m == [] then [] else BitStream(m[..|m| - 1]) + Bits(m[|m| - 1])
  }

  /** The circuit's register after the octets of m, one by one, starting from c. */
  function CrcOver(c: Bits32, m: seq<Octet>): Bits32 {
    if m == [] then c else NextCrc(CrcOver(c, m[..|m| - 1]), m[|m| - 1])
  }

  function Crc(m: seq<Octet>): Bits32 {
    CrcOver(Ones(), m)
  }

  lemma {:induction false} CrcIsSerial(c: Bits32, m: seq<Octet>)
    ensures CrcOver(c, m) == SerialRun(c, BitStream(m))
    decreases |m|
  {
    if m != [] {
      var front, last := m[..|m| - 1], m[|m| - 1];
      CrcIsSerial(c, front);
      ParallelIsSerial(CrcOver(c, front), last);
      SerialRunConcat(c, BitStream(front), Bits(last));
    }
  }

  lemma {:induction false} BitStreamConcat(m: seq<Octet>, n: seq<Octet>)
    ensures BitStream(m + n) == BitStream(m) + BitStream(n)
    decreases |n|
  {
    if n == [] {
      assert m + n == m;
    } else {
      assert (m + n)[..|m + n| - 1] == m + n[..|n| - 1];
      BitStreamConcat(m, n[..|n| - 1]);
    }
  }

  lemma {:induction false} CrcOverConcat(c: Bits32, m: seq<Octet>, n: seq<Octet>)
    ensures CrcOver(c, m + n) == CrcOver(CrcOver(c, m), n)
  {
    CrcIsSerial(c, m + n);
    CrcIsSerial(c, m);
    CrcIsSerial(CrcOver(c, m), n);
    BitStreamConcat(m, n);
    SerialRunConcat(c, BitStream(m), BitStream(n));
  }

  // ---- polynomial division ----

  /** The coefficient of x^(32-k) in G(x). */
  function Coefficient(k: nat): bv1
    requires k <= 32
  {
    if k == 0 || Tap(32 - k) then 1 else 0
  }

  /** One step of the long division: clear the leading coefficient and drop it. */
  function Reduce(w: seq<bv1>): (r: seq<bv1>)
    requires |w| > 32
    ensures |r| == |w| - 1
  {
    if w[0] == 1 then
      seq(|w| - 1, i requires 0 <= i < |w| - 1 => if i < 32 then Xor(w[i + 1], Coefficient(i + 1)) else w[i + 1])
    else
      w[1..]
  }

  /** The remainder of w(x) divided by G(x); index 0 is the coefficient of x^31. */
  function Remainder(w: seq<bv1>): Bits32
    requires |w| >= 32
    decreases |w|
  {
    if |w| == 32 then w else Remainder(Reduce(w))
  }

  /** m(x) * x^32, with c added to the 32 leading coefficients. */
  function Loaded(c: Bits32, m: seq<bv1>): (w: seq<bv1>)
    ensures |w| == |m| + 32
  {
    seq(|m| + 32, i requires 0 <= i < |m| + 32 =>
      Xor(if i < |m| then m[i] else 0, if i < 32 then c[31 - i] else 0))
  }

  /** The dividend of section 3.2.9: the first 32 bits of the message are complemented. */
  function Dividend(m: seq<bv1>): (w: seq<bv1>)
    ensures |w| == |m| + 32
  {
    seq(|m| + 32, i requires 0 <= i < |m| + 32 =>
      var b := if i < |m| then m[i] else 0;
      if i < 32 then !b else b)
  }

  lemma FoldBit(b: bv1, x: bv1, f: bv1, tap: bool)
    ensures (if f == 1 then Xor(Xor(b, x), if tap then 1 else 0) else Xor(b, x)) == Xor(b, if tap then Xor(x, f) else x)
    ensures Xor(x, f) == Xor(f, x) && Xor(0, f) == f && Xor(b, 0) == b
  {
  }

  lemma ReduceAt(w: seq<bv1>, i: nat)
    requires |w| > 32 && i < |w| - 1
    ensures Reduce(w)[i] == if w[0] == 1 && i < 32 then Xor(w[i + 1], Coefficient(i + 1)) else w[i + 1]
  {
  }

  lemma LoadedAt(c: Bits32, m: seq<bv1>, i: nat)
    requires i < |m| + 32
    ensures Loaded(c, m)[i] == Xor(if i < |m| then m[i] else 0, if i < 32 then c[31 - i] else 0)
  {
  }

  lemma SerialBit(c: Bits32, b: bv1, i: nat)
    requires i < 32
    ensures SerialStep(c, b)[31 - i] == if i == 31 then Xor(c[31], b)
      else if Tap(31 - i) then Xor(c[30 - i], Xor(c[31], b)) else c[30 - i]
  {
  }

  /** One coefficient of the reduced dividend is one bit of the register after a serial step,
    with the next bit of the message added. */
  lemma CoefficientReduces(c: Bits32, m: seq<bv1>, i: nat)
    requires m != [] && i < |m| + 31
    ensures Reduce(Loaded(c, m))[i] == Loaded(SerialStep(c, m[0]), m[1..])[i]
  {
    var b: bv1 := if i + 1 < |m| then m[i + 1] else 0;
    var x: bv1 := if i < 31 then c[30 - i] else 0;
    assert Tap(0);
    hide Reduce, Loaded, SerialStep, Xor, Tap;
    ReduceAt(Loaded(c, m), i);
    LoadedAt(c, m, 0);
    LoadedAt(c, m, i + 1);
    LoadedAt(SerialStep(c, m[0]), m[1..], i);
    FoldBit(b, x, Xor(c[31], m[0]), i < 32 && Tap(31 - i));
    FoldBit(m[0], c[31], m[0], true);
    if i < 32 {
      SerialBit(c, m[0], i);
    }
  }

  lemma SerialStepReduces(c: Bits32, m: seq<bv1>)
    requires m != []
    ensures Reduce(Loaded(c, m)) == Loaded(SerialStep(c, m[0]), m[1..])
  {
    var r, v := Reduce(Loaded(c, m)), Loaded(SerialStep(c, m[0]), m[1..]);
    forall i | 0 <= i < |v|
      ensures r[i] == v[i]
    {
      CoefficientReduces(c, m, i);
    }
  }

  lemma {:induction false} SerialRunDivides(c: Bits32, m: seq<bv1>)
    ensures forall i :: 0 <= i < 32 ==> Remainder(Loaded(c, m))[i] == SerialRun(c, m)[31 - i]
    decreases |m|
  {
    if m == [] {
      forall i | 0 <= i < 32
        ensures Loaded(c, m)[i] == c[31 - i]
      {
        assert Loaded(c, m)[i] == Xor(0, c[31 - i]);
      }
    } else {
      SerialStepReduces(c, m);
      SerialRunDivides(SerialStep(c, m[0]), m[1..]);
    }
  }

  /** The register of the circuit after a message is the remainder of the standard's
    long division, the coefficient of x^31 in bit 31. */
  lemma {:induction false} CircuitDividesPolynomial(m: seq<Octet>)
    ensures forall i :: 0 <= i < 32 ==> Crc(m)[31 - i] == Remainder(Dividend(BitStream(m)))[i]
  {
    CrcIsSerial(Ones(), m);
    SerialRunDivides(Ones(), BitStream(m));
    assert Dividend(BitStream(m)) == Loaded(Ones(), BitStream(m));
  }

  // ---- the frame check sequence ----

  /** Octet j of the frame check sequence for register c: the next eight bits from the
    top of the register, complemented, the first of them in bit 0. */
  function FcsOctetBits(c: Bits32, j: nat): Bits8
    requires j < 4
  {
    seq(8, i requires 0 <= i < 8 => !c[31 - 8 * j - i])
  }

  function FcsOctet(c: Bits32, j: nat): Octet
    requires j < 4
  {
    OctetOf(FcsOctetBits(c, j))
  }

  function Fcs(c: Bits32): (s: seq<Octet>)
    ensures |s| == 4
  {
    [FcsOctet(c, 0), FcsOctet(c, 1), FcsOctet(c, 2), FcsOctet(c, 3)]
  }

  lemma TopOctetIsFcs(c: Bits32)
    ensures TopOctet(c) == FcsOctet(c, 0)
    ensures forall j :: 0 <= j < 3 ==> FcsOctet(ShiftCrc(c), j) == FcsOctet(c, j + 1)
  {
    assert seq(8, i requires 0 <= i < 8 => !c[31 - i]) == FcsOctetBits(c, 0);
    forall j | 0 <= j < 3
      ensures FcsOctetBits(ShiftCrc(c), j) == FcsOctetBits(c, j + 1)
    {
      var a, b := FcsOctetBits(ShiftCrc(c), j), FcsOctetBits(c, j + 1);
      assert forall i :: 0 <= i < 8 ==> a[i] == b[i];
    }
  }

  function ShiftStep(r: CrcRegs, d: Octet): CrcRegs {
    CrcStep(r, false, d, false, false, true)
  }

  /** After the last octet of a message `crc` holds the first octet of the frame check
    sequence; three shift steps bring the other three, and a fourth leaves the register
    all ones, whatever is on the data input meanwhile. */
  lemma ShiftOutFcs(r: CrcRegs, last: Octet, d1: Octet, d2: Octet, d3: Octet, d4: Octet)
    ensures
      var r0 := CrcStep(r, false, last, true, false, true);
      var r1 := ShiftStep(r0, d1);
      var r2 := ShiftStep(r1, d2);
      var r3 := ShiftStep(r2, d3);
      && [r0.crc, r1.crc, r2.crc, r3.crc] == Fcs(NextCrc(r.crcReg, last))
      && ShiftStep(r3, d4).crcReg == Ones()
  {
    var c0 := NextCrc(r.crcReg, last);
    var c1, c2, c3 := ShiftCrc(c0), ShiftCrc(ShiftCrc(c0)), ShiftCrc(ShiftCrc(ShiftCrc(c0)));
    TopOctetIsFcs(c0);
    TopOctetIsFcs(c1);
    TopOctetIsFcs(c2);
    TopOctetIsFcs(c3);
    hide NextCrc, TopOctet, FcsOctet;
    assert ShiftCrc(c3) == Ones();
  }

  /** The octets m end with the frame check sequence of what precedes it. */
  predicate FcsValid(m: seq<Octet>) {
    |m| >= 4 && m[|m| - 4..] == Fcs(Crc(m[..|m| - 4]))
  }

  /** What the register holds after any message with a valid frame check sequence. */
  function Residue(): Bits32 {
    SerialRun(Ones(), seq(32, _ => 0))
  }

  lemma {:induction false} BitStreamOfFour(s: seq<Octet>)
    requires |s| == 4
    ensures BitStream(s) == Bits(s[0]) + Bits(s[1]) + Bits(s[2]) + Bits(s[3])
  {
    hide Bits;
    assert s[..3][..2] == s[..2] && s[..2][..1] == s[..1];
    assert s[..1] == [s[0]] && [s[0]][..0] == [];
    assert BitStream(s[..1]) == Bits(s[0]);
    assert BitStream(s[..2]) == Bits(s[0]) + Bits(s[1]);
    assert BitStream(s[..3]) == Bits(s[0]) + Bits(s[1]) + Bits(s[2]);
  }

  lemma FcsBits(c: Bits32)
    ensures forall i :: 0 <= i < 32 ==> BitStream(Fcs(c))[i] == !c[31 - i]
  {
    BitStreamOfFour(Fcs(c));
    var s := FcsOctetBits(c, 0) + FcsOctetBits(c, 1) + FcsOctetBits(c, 2) + FcsOctetBits(c, 3);
    FcsOctetBack(c, 0);
    FcsOctetBack(c, 1);
    FcsOctetBack(c, 2);
    FcsOctetBack(c, 3);
    hide FcsOctet, FcsOctetBits, Bits, OctetOf;
    assert BitStream(Fcs(c)) == s;
    forall i | 0 <= i < 32
      ensures s[i] == !c[31 - i]
    {
      FcsOctetBitsAt(c, i / 8, i % 8);
    }
  }

  lemma FcsOctetBack(c: Bits32, j: nat)
    requires j < 4
    ensures Bits(FcsOctet(c, j)) == FcsOctetBits(c, j)
  {
    BitsOfOctet(FcsOctetBits(c, j));
  }

  lemma FcsOctetBitsAt(c: Bits32, j: nat, i: nat)
    requires j < 4 && i < 8
    ensures FcsOctetBits(c, j)[i] == !c[31 - 8 * j - i]
  {
  }

  // ---- two runs side by side ----

  /** a and b differ in bit i exactly when i >= n and d differs from e in bit i - n. */
  predicate DifferAsShifted(a: Bits32, b: Bits32, d: Bits32, e: Bits32, n: nat) {
    forall i :: 0 <= i < 32 ==> (a[i] != b[i] <==> i >= n && d[i - n] != e[i - n])
  }

  /** When the inputs differ exactly where the top bits do, the feedback is the same in
    both runs and the difference is shifted out. */
  lemma {:induction false} DifferenceShiftsOut(a: Bits32, b: Bits32, x: seq<bv1>, y: seq<bv1>)
    requires |x| == |y| <= 32
    requires forall i :: 0 <= i < |x| ==> (x[i] != y[i] <==> a[31 - i] != b[31 - i])
    ensures DifferAsShifted(SerialRun(a, x), SerialRun(b, y), a, b, |x|)
    decreases |x|
  {
    if x != [] {
      var a', b' := SerialStep(a, x[0]), SerialStep(b, y[0]);
      assert Xor(a[31], x[0]) == Xor(b[31], y[0]);
      assert DifferAsShifted(a', b', a, b, 1);
      DifferenceShiftsOut(a', b', x[1..], y[1..]);
    }
  }

  /** Feeding any register its own frame check sequence leaves the same residue. */
  lemma {:induction false} OwnFcsLeavesResidue(c: Bits32)
    ensures SerialRun(c, BitStream(Fcs(c))) == Residue()
  {
    var x, y := BitStream(Fcs(c)), seq(32, _ => 0);
    FcsBits(c);
    assert forall i :: 0 <= i < 32 ==> x[i] == !c[31 - i];
    DifferenceShiftsOut(c, Ones(), x, y);
  }

  predicate AgreeBelow(a: Bits32, b: Bits32, n: nat) {
    forall i :: 0 <= i < n && i < 32 ==> a[i] == b[i]
  }

  /** Registers that agree in n low bits agreed in one bit fewer before the step, and saw the same feedback. */
  lemma StepBack(a: Bits32, b: Bits32, x: bv1, y: bv1, n: nat)
    requires 0 < n <= 32 && AgreeBelow(SerialStep(a, x), SerialStep(b, y), n)
    ensures AgreeBelow(a, b, n - 1) && Xor(a[31], x) == Xor(b[31], y)
  {
    var a', b' := SerialStep(a, x), SerialStep(b, y);
    assert a'[0] == Xor(a[31], x) && b'[0] == Xor(b[31], y);
    forall i | 0 <= i < n - 1
      ensures a[i] == b[i]
    {
      assert a'[i + 1] == b'[i + 1];
      XorCancel(a[i], b[i], Xor(a[31], x));
    }
  }

  lemma XorCancel(a: bv1, b: bv1, c: bv1)
    ensures Xor(a, c) == Xor(b, c) ==> a == b
    ensures Xor(c, a) == Xor(c, b) ==> a == b
  {
  }

  lemma {:induction false} RunBack(a: Bits32, b: Bits32, x: seq<bv1>, y: seq<bv1>, n: nat)
    requires |x| == |y| <= n <= 32 && AgreeBelow(SerialRun(a, x), SerialRun(b, y), n)
    ensures AgreeBelow(a, b, n - |x|)
    decreases |x|
  {
    if x != [] {
      RunBack(SerialStep(a, x[0]), SerialStep(b, y[0]), x[1..], y[1..], n);
      StepBack(a, b, x[0], y[0], n - |x| + 1);
    }
  }

  /** Up to 32 message bits can be read back from the register they leave behind. */
  lemma {:induction false} SerialRunInjectiveInMessage(c: Bits32, x: seq<bv1>, y: seq<bv1>)
    requires |x| == |y| <= 32 && SerialRun(c, x) == SerialRun(c, y)
    ensures x == y
    decreases |x|
  {
    if x != [] {
      var a', b' := SerialStep(c, x[0]), SerialStep(c, y[0]);
      RunBack(a', b', x[1..], y[1..], 32);
      StepBack(c, c, x[0], y[0], 32 - |x| + 1);
      XorCancel(x[0], y[0], c[31]);
      SerialRunInjectiveInMessage(a', x[1..], y[1..]);
      assert x == [x[0]] + x[1..] && y == [y[0]] + y[1..];
    }
  }

  /** The same message bits never take two registers to one. */
  lemma {:induction false} SerialRunInjectiveInState(a: Bits32, b: Bits32, x: seq<bv1>)
    requires SerialRun(a, x) == SerialRun(b, x)
    ensures a == b
    decreases |x|
  {
    if x != [] {
      SerialRunInjectiveInState(SerialStep(a, x[0]), SerialStep(b, x[0]), x[1..]);
      StepBack(a, b, x[0], x[0], 32);
      XorCancel(a[31], b[31], x[0]);
    }
  }

  lemma {:induction false} BitStreamInjective(m: seq<Octet>, n: seq<Octet>)
    requires |m| == |n| && BitStream(m) == BitStream(n)
    ensures m == n
  {
    if m != [] {
      var k := |m| - 1;
      assert BitStream(m)[..8 * k] == BitStream(m[..k]) && BitStream(m)[8 * k..] == Bits(m[k]);
      assert BitStream(n)[..8 * k] == BitStream(n[..k]) && BitStream(n)[8 * k..] == Bits(n[k]);
      BitStreamInjective(m[..k], n[..k]);
      OctetOfBits(m[k]);
      OctetOfBits(n[k]);
      assert m == m[..k] + [m[k]] && n == n[..k] + [n[k]];
    }
  }

  /** Four octets are determined by the registers before and after them. */
  lemma {:induction false} FourOctetsDetermined(c: Bits32, x: seq<Octet>, y: seq<Octet>)
    requires |x| == |y| <= 4 && CrcOver(c, x) == CrcOver(c, y)
    ensures x == y
  {
    CrcIsSerial(c, x);
    CrcIsSerial(c, y);
    SerialRunInjectiveInMessage(c, BitStream(x), BitStream(y));
    BitStreamInjective(x, y);
  }

  /** A message of at least four octets ends with its own frame check sequence
    exactly when the register holds the residue after all of it. */
  lemma FcsValidIffResidue(m: seq<Octet>)
    requires |m| >= 4
    ensures FcsValid(m) <==> Crc(m) == Residue()
  {
    var front, last := m[..|m| - 4], m[|m| - 4..];
    var c := Crc(front);
    assert m == front + last;
    CrcOverConcat(Ones(), front, last);
    OwnFcsLeavesResidue(c);
    CrcIsSerial(c, Fcs(c));
    if Crc(m) == Residue() {
      FourOctetsDetermined(c, last, Fcs(c));
    }
  }

  lemma {:induction false} StreamOfThree(c: Bits32, a: seq<bv1>, x: seq<bv1>, b: seq<bv1>)
    ensures SerialRun(c, a + x + b) == SerialRun(SerialRun(SerialRun(c, a), x), b)
  {
    SerialRunConcat(c, a + x, b);
    SerialRunConcat(c, a, x);
  }

  /** No change confined to 32 consecutive bits, wherever they lie in the order in which
    they are sent, turns one message with a valid frame check sequence into another. */
  lemma {:induction false} BitBurstIsDetected(m: seq<Octet>, m': seq<Octet>, a: seq<bv1>, x: seq<bv1>, y: seq<bv1>,
                                              b: seq<bv1>)
    requires BitStream(m) == a + x + b && BitStream(m') == a + y + b
    requires |x| == |y| <= 32 && x != y && FcsValid(m)
    ensures !FcsValid(m')
  {
    hide Fcs;
    FcsValidIffResidue(m);
    CrcIsSerial(Ones(), m);
    CrcIsSerial(Ones(), m');
    if FcsValid(m') {
      FcsValidIffResidue(m');
      var c := SerialRun(Ones(), a);
      StreamOfThree(Ones(), a, x, b);
      StreamOfThree(Ones(), a, y, b);
      SerialRunInjectiveInState(SerialRun(c, x), SerialRun(c, y), b);
      SerialRunInjectiveInMessage(c, x, y);
    }
  }

  /** In particular no change confined to four consecutive octets. */
  lemma {:induction false} BurstIsDetected(before: seq<Octet>, x: seq<Octet>, y: seq<Octet>, after: seq<Octet>)
    requires |x| == |y| == 4 && x != y && FcsValid(before + x + after)
    ensures !FcsValid(before + y + after)
  {
    hide FcsValid;
    BitStreamConcat(before + x, after);
    BitStreamConcat(before, x);
    BitStreamConcat(before + y, after);
    BitStreamConcat(before, y);
    if BitStream(x) == BitStream(y) {
      BitStreamInjective(x, y);
    }
    BitBurstIsDetected(before + x + after, before + y + after, BitStream(before), BitStream(x), BitStream(y),
                       BitStream(after));
  }
}
