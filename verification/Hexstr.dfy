/** Hexadecimal text (lib/sw/lsi/common/hexstr.c). */
module Hexstr {
  import opened Octets

  datatype Option<T> = None | Some(value: T)

  /** The value of a digit; the program stops on anything else. */
  function HexcharToByte(c: char): (r: Option<nat>)
    ensures r.Some? ==> r.value < 16
  {
    if '0' <= c <= '9' then Some(c as nat - '0' as nat)
    else if 'A' <= c <= 'F' then Some(c as nat - 'A' as nat + 10)
    else if 'a' <= c <= 'f' then Some(c as nat - 'a' as nat + 10)
    else None
  }

  function ByteToHexchar(n: nat): char
    requires n < 16
  {
    if n <= 9 then (n + '0' as nat) as char else (n + 'A' as nat - 10) as char
  }

  lemma DigitRoundTrip(n: nat)
    requires n < 16
    ensures HexcharToByte(ByteToHexchar(n)) == Some(n)
  {
  }

  /** c is the digit for v, in upper or in lower case. */
  predicate Stands(c: char, v: nat) {
    v < 16 && (c == "0123456789ABCDEF"[v] || c == "0123456789abcdef"[v])
  }

  /** The digits are these, and nothing else is one. */
  lemma DigitStands(c: char, v: nat)
    ensures HexcharToByte(c) == Some(v) <==> Stands(c, v)
    ensures v < 16 ==> ByteToHexchar(v) == "0123456789ABCDEF"[v]
  {
  }

  predicate IsHex(s: string) {
    forall i :: 0 <= i < |s| ==> HexcharToByte(s[i]).Some?
  }

  function Digit(c: char): nat
    requires HexcharToByte(c).Some?
  {
    HexcharToByte(c).value
  }

  /** The octets that the text stands for; an odd digit at the end is not looked at. */
  function Decoded(s: string): (data: seq<Octet>)
    requires IsHex(s[..|s| / 2 * 2])
    ensures |data| == |s| / 2
  {
    seq(|s| / 2, i requires 0 <= i < |s| / 2 =>
      assert s[..|s| / 2 * 2][2 * i] == s[2 * i] && s[..|s| / 2 * 2][2 * i + 1] == s[2 * i + 1];
      16 * Digit(s[2 * i]) + Digit(s[2 * i + 1]))
  }

  /** Two digits an octet, most significant first. */
  function HexText(data: seq<Octet>): (s: string)
    ensures |s| == 2 * |data|
  {
    seq(2 * |data|, i requires 0 <= i < 2 * |data| =>
      if i % 2 == 0 then ByteToHexchar(data[i / 2] / 16) else ByteToHexchar(data[i / 2] % 16))
  }

  /** Decoding the text gives back the octets. */
  lemma TextRoundTrip(data: seq<Octet>)
    ensures IsHex(HexText(data)[..2 * |data|]) && Decoded(HexText(data)) == data
  {
    hide ByteToHexchar;
    hide HexcharToByte;
    var s := HexText(data);
    assert s[..2 * |data|] == s;
    forall i | 0 <= i < |s|
      ensures HexcharToByte(s[i]) == Some(if i % 2 == 0 then data[i / 2] / 16 else data[i / 2] % 16)
    {
      DigitRoundTrip(if i % 2 == 0 then data[i / 2] / 16 else data[i / 2] % 16);
    }
    forall i | 0 <= i < |data|
      ensures Decoded(s)[i] == data[i]
    {
      EvenAndOdd(i);
      assert HexcharToByte(s[2 * i]) == Some(data[i] / 16) && HexcharToByte(s[2 * i + 1]) == Some(data[i] % 16);
    }
  }

  lemma EvenAndOdd(i: nat)
    ensures 2 * i % 2 == 0 && 2 * i / 2 == i && (2 * i + 1) % 2 == 1 && (2 * i + 1) / 2 == i
  {
  }

  /** And the octets give back the text, if it has whole octets in upper case. */
  lemma OctetsRoundTrip(s: string)
    requires IsHex(s) && |s| % 2 == 0 && forall i :: 0 <= i < |s| ==> !('a' <= s[i] <= 'f')
    ensures s[..|s| / 2 * 2] == s && HexText(Decoded(s)) == s
  {
    assert s[..|s| / 2 * 2] == s;
    forall i | 0 <= i < |s|
      ensures HexText(Decoded(s))[i] == s[i]
    {
      CharRoundTrip(s[i]);
      OctetHalves(Digit(s[i / 2 * 2]), Digit(s[i / 2 * 2 + 1]));
    }
    hide Digit;
    hide ByteToHexchar;
  }

  lemma CharRoundTrip(c: char)
    requires HexcharToByte(c).Some? && !('a' <= c <= 'f')
    ensures ByteToHexchar(Digit(c)) == c
  {
  }

  lemma OctetHalves(high: nat, low: nat)
    requires high < 16 && low < 16
    ensures (16 * high + low) / 16 == high && (16 * high + low) % 16 == low
  {
  }

  lemma TextOfConcat(a: seq<Octet>, b: seq<Octet>)
    ensures HexText(a + b) == HexText(a) + HexText(b)
  {
    hide ByteToHexchar;
    var n := |a|;
    forall i | 0 <= i < 2 * |a + b|
      ensures HexText(a + b)[i] == (HexText(a) + HexText(b))[i]
    {
      if i >= 2 * n {
        assert (i - 2 * n) / 2 == i / 2 - n && (i - 2 * n) % 2 == i % 2;
      }
    }
  }

  /** `ok` is false where the program stops, at the first pair that is not two digits. */
  method HexstrToBin(hexstr: string, data: array<Octet>) returns (ok: bool)
    requires |hexstr| / 2 <= data.Length
    modifies data
    ensures ok <==> IsHex(hexstr[..|hexstr| / 2 * 2])
    ensures ok ==> data[..|hexstr| / 2] == Decoded(hexstr)
    ensures data[|hexstr| / 2..] == old(data[|hexstr| / 2..])
  {
    var len := |hexstr| / 2;
    for i := 0 to len
      invariant IsHex(hexstr[..2 * i])
      invariant forall j :: 0 <= j < i ==>
        data[j] == 16 * Digit(hexstr[..2 * i][2 * j]) + Digit(hexstr[..2 * i][2 * j + 1])
      invariant data[len..] == old(data[len..])
    {
      var high, low := HexcharToByte(hexstr[i * 2]), HexcharToByte(hexstr[i * 2 + 1]);
      if high.None? || low.None? {
        assert hexstr[..len * 2][i * 2] == hexstr[i * 2] && hexstr[..len * 2][i * 2 + 1] == hexstr[i * 2 + 1];
        return false;
      }
      data[i] := high.value * 16 + low.value;
    }
    return true;
  }

  method BinToHexstr(data: array<Octet>, len: nat, hexstr: array<char>)
    requires len <= data.Length && 2 * len < hexstr.Length
    modifies hexstr
    ensures hexstr[..2 * len] == HexText(data[..len]) && hexstr[2 * len] == 0 as char
    ensures hexstr[2 * len + 1..] == old(hexstr[2 * len + 1..])
  {
    for i := 0 to len
      invariant forall j :: 0 <= j < 2 * i ==>
        hexstr[j] == if j % 2 == 0 then ByteToHexchar(data[j / 2] / 16) else ByteToHexchar(data[j / 2] % 16)
      invariant forall j :: 2 * len < j < hexstr.Length ==> hexstr[j] == old(hexstr[j])
    {
      hexstr[2 * i] := ByteToHexchar(data[i] / 16);
      hexstr[2 * i + 1] := ByteToHexchar(data[i] % 16);
    }
    hexstr[2 * len] := 0 as char;
  }
}
