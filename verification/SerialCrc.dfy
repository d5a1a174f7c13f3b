/** One octet through the byte-wide circuit is eight bits through the serial register.

  The serial register is the linear feedback shift register of G(x), the
  polynomial of section 3.2.9 of IEEE 802.3. Both sides are brought to the same
  sums over x, the data octet added to the top octet of the register. */
module SerialCrc {
  import opened Octets
  import opened EthernetCrc8

  /** The exponents of G(x) below 32; together they are 0x04C11DB7. */
  predicate Tap(i: nat) {
    || i == 0 || i == 1 || i == 2 || i == 4 || i == 5 || i == 7 || i == 8
    || i == 10 || i == 11 || i == 12 || i == 16 || i == 22 || i == 23 || i == 26
  }

  // ---- the bit-serial register ----

  function Xor(a: bv1, b: bv1): bv1 {
    a ^ b
  }

  function FeedbackBit(c: Bits32, f: bv1, i: nat): bv1
    requires i < 32
  {
    if i == 0 then f else if Tap(i) then Xor(c[i - 1], f) else c[i - 1]
  }

  function SerialStep(c: Bits32, b: bv1): Bits32 {
    seq(32, i requires 0 <= i < 32 => FeedbackBit(c, Xor(c[31], b), i))
  }

  function SerialRun(c: Bits32, m: seq<bv1>): Bits32
    decreases |m|
  {
    if m == [] then c else SerialRun(SerialStep(c, m[0]), m[1..])
  }

  lemma {:induction false} SerialRunConcat(c: Bits32, m: seq<bv1>, n: seq<bv1>)
    ensures SerialRun(c, m + n) == SerialRun(SerialRun(c, m), n)
    decreases |m|
  {
    if m == [] {
      assert m + n == n;
    } else {
      assert (m + n)[1..] == m[1..] + n;
      SerialRunConcat(SerialStep(c, m[0]), m[1..], n);
    }
  }

  // ---- one octet in parallel is eight bits in series ----

  /** x is the data octet added to the top octet of the register, first bit first. */
  predicate TopXor(c: Bits32, d: Bits8, x: Bits8) {
    && d[0] == x[0] ^ c[31] && d[1] == x[1] ^ c[30] && d[2] == x[2] ^ c[29] && d[3] == x[3] ^ c[28]
    && d[4] == x[4] ^ c[27] && d[5] == x[5] ^ c[26] && d[6] == x[6] ^ c[25] && d[7] == x[7] ^ c[24]
  }

  /** The circuit's equations over x: the sums in which every pair d[j], c[31-j] is folded into x[j]. */
  function Folded(c: Bits32, x: Bits8, i: nat): bv1
    requires i < 32
  {
    if i == 0 then x[1] ^ x[7]
    else if i == 1 then x[0] ^ x[1] ^ x[6] ^ x[7]
    else if i == 2 then x[0] ^ x[1] ^ x[5] ^ x[6] ^ x[7]
    else if i == 3 then x[0] ^ x[4] ^ x[5] ^ x[6]
    else if i == 4 then x[1] ^ x[3] ^ x[4] ^ x[5] ^ x[7]
    else if i == 5 then x[0] ^ x[1] ^ x[2] ^ x[3] ^ x[4] ^ x[6] ^ x[7]
    else if i == 6 then x[0] ^ x[1] ^ x[2] ^ x[3] ^ x[5] ^ x[6]
    else if i == 7 then x[0] ^ x[2] ^ x[4] ^ x[5] ^ x[7]
    else if i == 8 then c[0] ^ x[3] ^ x[4] ^ x[6] ^ x[7]
    else if i == 9 then c[1] ^ x[2] ^ x[3] ^ x[5] ^ x[6]
    else if i == 10 then c[2] ^ x[2] ^ x[4] ^ x[5] ^ x[7]
    else if i == 11 then c[3] ^ x[3] ^ x[4] ^ x[6] ^ x[7]
    else if i == 12 then c[4] ^ x[1] ^ x[2] ^ x[3] ^ x[5] ^ x[6] ^ x[7]
    else if i == 13 then c[5] ^ x[0] ^ x[1] ^ x[2] ^ x[4] ^ x[5] ^ x[6]
    else if i == 14 then c[6] ^ x[0] ^ x[1] ^ x[3] ^ x[4] ^ x[5]
    else if i == 15 then c[7] ^ x[0] ^ x[2] ^ x[3] ^ x[4]
    else if i == 16 then c[8] ^ x[2] ^ x[3] ^ x[7]
    else if i == 17 then c[9] ^ x[1] ^ x[2] ^ x[6]
    else if i == 18 then c[10] ^ x[0] ^ x[1] ^ x[5]
    else if i == 19 then c[11] ^ x[0] ^ x[4]
    else if i == 20 then c[12] ^ x[3]
    else if i == 21 then c[13] ^ x[2]
    else if i == 22 then c[14] ^ x[7]
    else if i == 23 then c[15] ^ x[1] ^ x[6] ^ x[7]
    else if i == 24 then c[16] ^ x[0] ^ x[5] ^ x[6]
    else if i == 25 then c[17] ^ x[4] ^ x[5]
    else if i == 26 then c[18] ^ x[1] ^ x[3] ^ x[4] ^ x[7]
    else if i == 27 then c[19] ^ x[0] ^ x[2] ^ x[3] ^ x[6]
    else if i == 28 then c[20] ^ x[1] ^ x[2] ^ x[5]
    else if i == 29 then c[21] ^ x[0] ^ x[1] ^ x[4]
    else if i == 30 then c[22] ^ x[0] ^ x[3]
    else c[23] ^ x[2]
  }

  predicate RowAgrees(c: Bits32, d: Bits8, x: Bits8, i: nat)
    requires i < 32
  {
    NextBit(c, d, i) == Folded(c, x, i)
  }

  lemma CircuitRows0To1(c: Bits32, d: Bits8, x: Bits8)
    requires TopXor(c, d, x)
    ensures RowAgrees(c, d, x, 0)
    ensures RowAgrees(c, d, x, 1)
  {
  }

  lemma CircuitRow2(c: Bits32, d: Bits8, x: Bits8)
    requires TopXor(c, d, x)
    ensures RowAgrees(c, d, x, 2)
  {
  }

  lemma CircuitRow3(c: Bits32, d: Bits8, x: Bits8)
    requires TopXor(c, d, x)
    ensures RowAgrees(c, d, x, 3)
  {
  }

  lemma CircuitRow4(c: Bits32, d: Bits8, x: Bits8)
    requires TopXor(c, d, x)
    ensures RowAgrees(c, d, x, 4)
  {
  }

  lemma CircuitRow7(c: Bits32, d: Bits8, x: Bits8)
    requires TopXor(c, d, x)
    ensures RowAgrees(c, d, x, 7)
  {
  }

  // Row 5 has the most terms: it is taken in two halves, with k common to both.
  function Row5Common(c: Bits32): bv1 {
    c[25] ^ c[27] ^ c[29] ^ c[30] ^ c[31]
  }

  lemma CircuitRow5First(c: Bits32, d: Bits8, x: Bits8)
    requires TopXor(c, d, x)
    ensures c[24] ^ d[2] ^ c[30] ^ d[7] ^ c[31] ^ d[4] ^ d[6] == x[2] ^ x[4] ^ x[6] ^ x[7] ^ Row5Common(c)
  {
  }

  lemma CircuitRow5Second(c: Bits32, d: Bits8, x: Bits8)
    requires TopXor(c, d, x)
    ensures d[0] ^ c[29] ^ d[1] ^ c[27] ^ c[28] ^ d[3] ^ c[25] == x[0] ^ x[1] ^ x[3] ^ Row5Common(c)
  {
  }

  lemma CircuitRow5(c: Bits32, d: Bits8, x: Bits8)
    requires TopXor(c, d, x)
    ensures RowAgrees(c, d, x, 5)
  {
    hide TopXor;
    hide Row5Common;
    CircuitRow5First(c, d, x);
    CircuitRow5Second(c, d, x);
  }

  lemma CircuitRow6(c: Bits32, d: Bits8, x: Bits8)
    requires TopXor(c, d, x)
    ensures RowAgrees(c, d, x, 6)
  {
  }

  lemma CircuitRows8To9(c: Bits32, d: Bits8, x: Bits8)
    requires TopXor(c, d, x)
    ensures RowAgrees(c, d, x, 8)
    ensures RowAgrees(c, d, x, 9)
  {
  }

  lemma CircuitRows10To11(c: Bits32, d: Bits8, x: Bits8)
    requires TopXor(c, d, x)
    ensures RowAgrees(c, d, x, 10)
    ensures RowAgrees(c, d, x, 11)
  {
  }

  lemma CircuitRow12(c: Bits32, d: Bits8, x: Bits8)
    requires TopXor(c, d, x)
    ensures RowAgrees(c, d, x, 12)
  {
  }

  lemma CircuitRow13(c: Bits32, d: Bits8, x: Bits8)
    requires TopXor(c, d, x)
    ensures RowAgrees(c, d, x, 13)
  {
  }

  lemma CircuitRow14(c: Bits32, d: Bits8, x: Bits8)
    requires TopXor(c, d, x)
    ensures RowAgrees(c, d, x, 14)
  {
  }

  lemma CircuitRows15To16(c: Bits32, d: Bits8, x: Bits8)
    requires TopXor(c, d, x)
    ensures RowAgrees(c, d, x, 15)
    ensures RowAgrees(c, d, x, 16)
  {
  }

  lemma CircuitRows17To21(c: Bits32, d: Bits8, x: Bits8)
    requires TopXor(c, d, x)
    ensures RowAgrees(c, d, x, 17)
    ensures RowAgrees(c, d, x, 18)
    ensures RowAgrees(c, d, x, 19)
    ensures RowAgrees(c, d, x, 20)
    ensures RowAgrees(c, d, x, 21)
  {
  }

  lemma CircuitRows22To23(c: Bits32, d: Bits8, x: Bits8)
    requires TopXor(c, d, x)
    ensures RowAgrees(c, d, x, 22)
    ensures RowAgrees(c, d, x, 23)
  {
  }

  lemma CircuitRows24To25(c: Bits32, d: Bits8, x: Bits8)
    requires TopXor(c, d, x)
    ensures RowAgrees(c, d, x, 24)
    ensures RowAgrees(c, d, x, 25)
  {
  }

  lemma CircuitRows26To27(c: Bits32, d: Bits8, x: Bits8)
    requires TopXor(c, d, x)
    ensures RowAgrees(c, d, x, 26)
    ensures RowAgrees(c, d, x, 27)
  {
  }

  lemma CircuitRows28To31(c: Bits32, d: Bits8, x: Bits8)
    requires TopXor(c, d, x)
    ensures RowAgrees(c, d, x, 28)
    ensures RowAgrees(c, d, x, 29)
    ensures RowAgrees(c, d, x, 30)
    ensures RowAgrees(c, d, x, 31)
  {
  }

  lemma CircuitRow(c: Bits32, d: Bits8, x: Bits8, i: nat)
    requires TopXor(c, d, x) && i < 32
    ensures RowAgrees(c, d, x, i)
  {
    hide RowAgrees, TopXor;
    CircuitRows0To1(c, d, x);
    CircuitRow2(c, d, x);
    CircuitRow3(c, d, x);
    CircuitRow4(c, d, x);
    CircuitRow7(c, d, x);
    CircuitRow5(c, d, x);
    CircuitRow6(c, d, x);
    CircuitRows8To9(c, d, x);
    CircuitRows10To11(c, d, x);
    CircuitRow12(c, d, x);
    CircuitRow13(c, d, x);
    CircuitRow14(c, d, x);
    CircuitRows15To16(c, d, x);
    CircuitRows17To21(c, d, x);
    CircuitRows22To23(c, d, x);
    CircuitRows24To25(c, d, x);
    CircuitRows26To27(c, d, x);
    CircuitRows28To31(c, d, x);
  }

  /** Bit i - m after a step with feedback f that shifted b into it. */
  function Echo(b: bv1, f: bv1, m: nat, i: nat): bv1
    requires m <= i
  {
    if Tap(i - m) then Xor(b, f) else b
  }

  /** Bit i after four serial steps with feedback bits f0, f1, f2, f3, when `past` is bit i - 4 before them. */
  function FourStepBit(past: bv1, f0: bv1, f1: bv1, f2: bv1, f3: bv1, i: nat): bv1 {
    var b0 := if i >= 4 then Echo(past, f0, 3, i) else if i == 3 then f0 else 0;
    var b1 := if i >= 3 then Echo(b0, f1, 2, i) else if i == 2 then f1 else 0;
    var b2 := if i >= 2 then Echo(b1, f2, 1, i) else if i == 1 then f2 else 0;
    if i >= 1 then Echo(b2, f3, 0, i) else f3
  }

  /** Bit i after eight serial steps with feedback bits f. */
  function EightStepBit(c: Bits32, f: Bits8, i: nat): bv1
    requires i < 32
  {
    var mid := if i < 4 then 0 else FourStepBit(if i < 8 then 0 else c[i - 8], f[0], f[1], f[2], f[3], i - 4);
    FourStepBit(mid, f[4], f[5], f[6], f[7], i)
  }

  /** The feedback bits of eight serial steps. */
  function Feedback(x: Bits8): Bits8 {
    [x[0], x[1], x[2], x[3], x[4], x[5], Xor(x[6], x[0]), Xor(x[7], x[1])]
  }

  lemma SerialRows0To1(c: Bits32, x: Bits8)
    ensures EightStepAgrees(c, x, 0)
    ensures EightStepAgrees(c, x, 1)
  {
  }

  lemma SerialRows2To3(c: Bits32, x: Bits8)
    ensures EightStepAgrees(c, x, 2)
    ensures EightStepAgrees(c, x, 3)
  {
  }

  lemma SerialRows4To5(c: Bits32, x: Bits8)
    ensures EightStepAgrees(c, x, 4)
    ensures EightStepAgrees(c, x, 5)
  {
  }

  lemma SerialRows6To7(c: Bits32, x: Bits8)
    ensures EightStepAgrees(c, x, 6)
    ensures EightStepAgrees(c, x, 7)
  {
  }

  lemma SerialRows8To9(c: Bits32, x: Bits8)
    ensures EightStepAgrees(c, x, 8)
    ensures EightStepAgrees(c, x, 9)
  {
  }

  lemma SerialRows10To11(c: Bits32, x: Bits8)
    ensures EightStepAgrees(c, x, 10)
    ensures EightStepAgrees(c, x, 11)
  {
  }

  lemma SerialRows12To13(c: Bits32, x: Bits8)
    ensures EightStepAgrees(c, x, 12)
    ensures EightStepAgrees(c, x, 13)
  {
  }

  lemma SerialRows14To15(c: Bits32, x: Bits8)
    ensures EightStepAgrees(c, x, 14)
    ensures EightStepAgrees(c, x, 15)
  {
  }

  lemma SerialRows16To17(c: Bits32, x: Bits8)
    ensures EightStepAgrees(c, x, 16)
    ensures EightStepAgrees(c, x, 17)
  {
  }

  lemma SerialRows18To19(c: Bits32, x: Bits8)
    ensures EightStepAgrees(c, x, 18)
    ensures EightStepAgrees(c, x, 19)
  {
  }

  lemma SerialRows20To21(c: Bits32, x: Bits8)
    ensures EightStepAgrees(c, x, 20)
    ensures EightStepAgrees(c, x, 21)
  {
  }

  lemma SerialRows22To23(c: Bits32, x: Bits8)
    ensures EightStepAgrees(c, x, 22)
    ensures EightStepAgrees(c, x, 23)
  {
  }

  lemma SerialRows24To25(c: Bits32, x: Bits8)
    ensures EightStepAgrees(c, x, 24)
    ensures EightStepAgrees(c, x, 25)
  {
  }

  lemma SerialRows26To27(c: Bits32, x: Bits8)
    ensures EightStepAgrees(c, x, 26)
    ensures EightStepAgrees(c, x, 27)
  {
  }

  lemma SerialRows28To29(c: Bits32, x: Bits8)
    ensures EightStepAgrees(c, x, 28)
    ensures EightStepAgrees(c, x, 29)
  {
  }

  lemma SerialRows30To31(c: Bits32, x: Bits8)
    ensures EightStepAgrees(c, x, 30)
    ensures EightStepAgrees(c, x, 31)
  {
  }

  predicate EightStepAgrees(c: Bits32, x: Bits8, i: nat)
    requires i < 32
  {
    EightStepBit(c, Feedback(x), i) == Folded(c, x, i)
  }

  lemma SerialRow(c: Bits32, x: Bits8, i: nat)
    requires i < 32
    ensures EightStepAgrees(c, x, i)
  {
    hide EightStepAgrees;
    SerialRows0To1(c, x);
    SerialRows2To3(c, x);
    SerialRows4To5(c, x);
    SerialRows6To7(c, x);
    SerialRows8To9(c, x);
    SerialRows10To11(c, x);
    SerialRows12To13(c, x);
    SerialRows14To15(c, x);
    SerialRows16To17(c, x);
    SerialRows18To19(c, x);
    SerialRows20To21(c, x);
    SerialRows22To23(c, x);
    SerialRows24To25(c, x);
    SerialRows26To27(c, x);
    SerialRows28To29(c, x);
    SerialRows30To31(c, x);
  }

  /** t is s after one serial step with feedback f. */
  predicate Follows(s: Bits32, f: bv1, t: Bits32) {
    forall i :: 0 <= i < 32 ==> t[i] == FeedbackBit(s, f, i)
  }

  lemma FourSerialBits(c: Bits32, f0: bv1, f1: bv1, f2: bv1, f3: bv1,
                       s1: Bits32, s2: Bits32, s3: Bits32, s4: Bits32, i: nat)
    requires Follows(c, f0, s1) && Follows(s1, f1, s2) && Follows(s2, f2, s3) && Follows(s3, f3, s4)
    requires i < 32
    ensures s4[i] == FourStepBit(if i < 4 then 0 else c[i - 4], f0, f1, f2, f3, i)
  {
    assert Tap(0);
    hide Tap, Xor;
    if i >= 1 { assert s3[i - 1] == FeedbackBit(s2, f2, i - 1); }
    if i >= 2 { assert s2[i - 2] == FeedbackBit(s1, f1, i - 2); }
    if i >= 3 { assert s1[i - 3] == FeedbackBit(c, f0, i - 3); }
  }

  function Sum8(c: Bits32, d: Bits8): Bits8 {
    seq(8, j requires 0 <= j < 8 => Xor(c[31 - j], d[j]))
  }

  lemma SerialStepFollows(c: Bits32, b: bv1)
    ensures Follows(c, Xor(c[31], b), SerialStep(c, b))
  {
  }

  /** No feedback comes in above bit 26. */
  lemma TopsFollow(s: Bits32, f: bv1, t: Bits32)
    requires Follows(s, f, t)
    ensures t[31] == s[30] && t[30] == s[29] && t[29] == s[28] && t[28] == s[27] && t[27] == s[26]
    ensures t[26] == Xor(s[25], f) && t[25] == s[24]
  {
    hide Xor;
    assert forall i :: 27 <= i < 32 ==> t[i] == FeedbackBit(s, f, i);
    assert t[26] == FeedbackBit(s, f, 26) && t[25] == FeedbackBit(s, f, 25);
  }

  /** Four steps leave the next four top bits of the register where the feedback can see them. */
  lemma FourTops(c: Bits32, b0: bv1, b1: bv1, b2: bv1, b3: bv1, s1: Bits32, s2: Bits32, s3: Bits32, s4: Bits32)
    requires Follows(c, Xor(c[31], b0), s1) && Follows(s1, Xor(s1[31], b1), s2)
    requires Follows(s2, Xor(s2[31], b2), s3) && Follows(s3, Xor(s3[31], b3), s4)
    ensures s1[31] == c[30] && s2[31] == c[29] && s3[31] == c[28] && s4[31] == c[27]
    ensures s4[30] == c[26] && s4[29] == Xor(c[25], Xor(c[31], b0)) && s4[28] == Xor(c[24], Xor(c[30], b1))
  {
    hide Xor, Follows;
    TopsFollow(c, Xor(c[31], b0), s1);
    TopsFollow(s1, Xor(s1[31], b1), s2);
    TopsFollow(s2, Xor(s2[31], b2), s3);
    TopsFollow(s3, Xor(s3[31], b3), s4);
  }

  lemma EightSerialBits(c: Bits32, f: Bits8, s1: Bits32, s2: Bits32, s3: Bits32, s4: Bits32,
                        s5: Bits32, s6: Bits32, s7: Bits32, s8: Bits32, i: nat)
    requires Follows(c, f[0], s1) && Follows(s1, f[1], s2) && Follows(s2, f[2], s3) && Follows(s3, f[3], s4)
    requires Follows(s4, f[4], s5) && Follows(s5, f[5], s6) && Follows(s6, f[6], s7) && Follows(s7, f[7], s8)
    requires i < 32
    ensures s8[i] == EightStepBit(c, f, i)
  {
    hide Follows, FourStepBit, Xor;
    FourSerialBits(s4, f[4], f[5], f[6], f[7], s5, s6, s7, s8, i);
    if i >= 4 {
      FourSerialBits(c, f[0], f[1], f[2], f[3], s1, s2, s3, s4, i - 4);
    }
  }

  /** The chain of eight serial steps with the feedback each of them really sees. */
  predicate EightSteps(c: Bits32, d: Bits8, s1: Bits32, s2: Bits32, s3: Bits32, s4: Bits32,
                       s5: Bits32, s6: Bits32, s7: Bits32, s8: Bits32) {
    && Follows(c, Xor(c[31], d[0]), s1) && Follows(s1, Xor(s1[31], d[1]), s2)
    && Follows(s2, Xor(s2[31], d[2]), s3) && Follows(s3, Xor(s3[31], d[3]), s4)
    && Follows(s4, Xor(s4[31], d[4]), s5) && Follows(s5, Xor(s5[31], d[5]), s6)
    && Follows(s6, Xor(s6[31], d[6]), s7) && Follows(s7, Xor(s7[31], d[7]), s8)
  }

  lemma FeedbackValues(c: Bits32, d: Bits8)
    ensures var f := Feedback(Sum8(c, d));
      && f[0] == Xor(c[31], d[0]) && f[1] == Xor(c[30], d[1]) && f[2] == Xor(c[29], d[2]) && f[3] == Xor(c[28], d[3])
      && f[4] == Xor(c[27], d[4]) && f[5] == Xor(c[26], d[5])
      && f[6] == Xor(Xor(c[25], d[6]), Xor(c[31], d[0])) && f[7] == Xor(Xor(c[24], d[7]), Xor(c[30], d[1]))
  {
    hide Xor;
    var x := Sum8(c, d);
    var f := Feedback(x);
    assert f[0] == x[0] && f[1] == x[1] && f[2] == x[2] && f[3] == x[3] && f[4] == x[4] && f[5] == x[5];
    assert f[6] == Xor(x[6], x[0]);
    assert f[7] == Xor(x[7], x[1]);
    hide Feedback;
  }

  lemma FeedbackSeen(c: Bits32, d: Bits8, s1: Bits32, s2: Bits32, s3: Bits32, s4: Bits32,
                     s5: Bits32, s6: Bits32, s7: Bits32, s8: Bits32)
    requires EightSteps(c, d, s1, s2, s3, s4, s5, s6, s7, s8)
    ensures var f := Feedback(Sum8(c, d));
      && f[0] == Xor(c[31], d[0]) && f[1] == Xor(s1[31], d[1]) && f[2] == Xor(s2[31], d[2])
      && f[3] == Xor(s3[31], d[3]) && f[4] == Xor(s4[31], d[4]) && f[5] == Xor(s5[31], d[5])
      && f[6] == Xor(s6[31], d[6]) && f[7] == Xor(s7[31], d[7])
  {
    hide Follows, Xor, Feedback, Sum8;
    FourTops(c, d[0], d[1], d[2], d[3], s1, s2, s3, s4);
    FourTops(s4, d[4], d[5], d[6], d[7], s5, s6, s7, s8);
    XorSwap(c[25], d[6], Xor(c[31], d[0]));
    XorSwap(c[24], d[7], Xor(c[30], d[1]));
    FeedbackValues(c, d);
  }

  lemma XorSwap(a: bv1, b: bv1, c: bv1)
    ensures Xor(Xor(a, b), c) == Xor(Xor(a, c), b)
  {
  }

  lemma EightStepsOfRun(c: Bits32, d: Bits8)
      returns (s1: Bits32, s2: Bits32, s3: Bits32, s4: Bits32, s5: Bits32, s6: Bits32, s7: Bits32, s8: Bits32)
    ensures EightSteps(c, d, s1, s2, s3, s4, s5, s6, s7, s8) && s8 == SerialRun(c, d)
  {
    hide SerialStep, SerialRun, Follows, Xor;
    s1 := SerialStep(c, d[0]);
    s2 := SerialStep(s1, d[1]);
    s3 := SerialStep(s2, d[2]);
    s4 := SerialStep(s3, d[3]);
    s5 := SerialStep(s4, d[4]);
    s6 := SerialStep(s5, d[5]);
    s7 := SerialStep(s6, d[6]);
    s8 := SerialStep(s7, d[7]);
    SerialRunEight(c, d);
    SerialStepFollows(c, d[0]);
    SerialStepFollows(s1, d[1]);
    SerialStepFollows(s2, d[2]);
    SerialStepFollows(s3, d[3]);
    SerialStepFollows(s4, d[4]);
    SerialStepFollows(s5, d[5]);
    SerialStepFollows(s6, d[6]);
    SerialStepFollows(s7, d[7]);
  }

  /** Eight serial steps with the feedback bits spelled out. */
  lemma {:induction false} EightSerialSteps(c: Bits32, d: Bits8, i: nat)
    requires i < 32
    ensures SerialRun(c, d)[i] == EightStepBit(c, Feedback(Sum8(c, d)), i)
  {
    hide SerialRun, EightStepBit, Follows, Feedback, Sum8, Xor;
    var s1, s2, s3, s4, s5, s6, s7, s8 := EightStepsOfRun(c, d);
    FeedbackSeen(c, d, s1, s2, s3, s4, s5, s6, s7, s8);
    EightSerialBits(c, Feedback(Sum8(c, d)), s1, s2, s3, s4, s5, s6, s7, s8, i);
  }

  lemma {:induction false} SerialRunEight(c: Bits32, d: Bits8)
    ensures SerialRun(c, d) == SerialStep(SerialStep(SerialStep(SerialStep(SerialStep(SerialStep(SerialStep(
                               SerialStep(c, d[0]), d[1]), d[2]), d[3]), d[4]), d[5]), d[6]), d[7])
  {
    var s1 := SerialStep(c, d[0]);
    var s2 := SerialStep(s1, d[1]);
    var s3 := SerialStep(s2, d[2]);
    var s4 := SerialStep(s3, d[3]);
    var s5 := SerialStep(s4, d[4]);
    var s6 := SerialStep(s5, d[5]);
    var s7 := SerialStep(s6, d[6]);
    SerialRunDrop(c, d, 0);
    SerialRunDrop(s1, d, 1);
    SerialRunDrop(s2, d, 2);
    SerialRunDrop(s3, d, 3);
    SerialRunDrop(s4, d, 4);
    SerialRunDrop(s5, d, 5);
    SerialRunDrop(s6, d, 6);
    SerialRunDrop(s7, d, 7);
    assert d[0..] == d && d[8..] == [];
    hide SerialStep;
  }

  lemma {:induction false} SerialRunDrop(c: Bits32, m: seq<bv1>, k: nat)
    requires k < |m|
    ensures SerialRun(c, m[k..]) == SerialRun(SerialStep(c, m[k]), m[k + 1..])
  {
    assert m[k..][1..] == m[k + 1..];
  }

  lemma {:induction false} CircuitBit(c: Bits32, d: Bits8, i: nat)
    requires i < 32
    ensures NextBit(c, d, i) == SerialRun(c, d)[i]
  {
    var x := Sum8(c, d);
    CircuitRow(c, d, x, i);
    SerialRow(c, x, i);
    EightSerialSteps(c, d, i);
    hide NextBit, Folded, EightStepBit, SerialRun;
  }

  /** The 32 equations of the circuit consume an octet exactly as eight serial steps do, first bit first. */
  lemma {:induction false} ParallelIsSerial(c: Bits32, d: Octet)
    ensures NextCrc(c, d) == SerialRun(c, Bits(d))
  {
    forall i | 0 <= i < 32
      ensures NextCrc(c, d)[i] == SerialRun(c, Bits(d))[i]
    {
      CircuitBit(c, Bits(d), i);
    }
  }
}
