/** Hex encoding of hashes. */
module Hex {
  import opened Text

  type Byte = b: int | 0 <= b < 256

  function Digit(n: int): char
    requires 0 <= n < 16
  {
    if n < 10 then '0' + n as char else 'a' + (n - 10) as char
  }

  /** Either case is read; only lower case is written. */
  function DigitValue(c: char): Option<int> {
    if '0' <= c <= '9' then Some((c - '0') as int)
    else if 'a' <= c <= 'f' then Some((c - 'a') as int + 10)
    else if 'A' <= c <= 'F' then Some((c - 'A') as int + 10)
    else None
  }

  function Lower(c: char): char {
    if 'A' <= c <= 'F' then 'a' + (c - 'A') else c
  }

  function LowerAll(s: string): string {
    seq(|s|, i requires 0 <= i < |s| => Lower(s[i]))
  }

  function Encode(bytes: seq<Byte>): (s: string)
    ensures |s| == 2 * |bytes|
  {
    if bytes == [] then "" else [Digit(bytes[0] / 16), Digit(bytes[0] % 16)] + Encode(bytes[1..])
  }

  function ByteOf(hi: int, lo: int): (b: Byte)
    requires 0 <= hi < 16 && 0 <= lo < 16
    ensures b / 16 == hi && b % 16 == lo
  {
    hi * 16 + lo
  }

  function Decode(s: string): (r: Option<seq<Byte>>)
    ensures r.Some? ==> |s| == 2 * |r.value|
  {
    if s == "" then Some([])
    else if |s| == 1 then None
    else
      var hi, lo, rest := DigitValue(s[0]), DigitValue(s[1]), Decode(s[2..]);
      if hi.None? || lo.None? || rest.None? then None
      else
        Some([ByteOf(hi.value, lo.value)] + rest.value)
  }

  method EncodeBytes(bytes: seq<Byte>) returns (out: string)
    ensures out == Encode(bytes)
  {
    out := "";
    assert bytes[0..] == bytes && "" + Encode(bytes) == Encode(bytes);
    for i := 0 to |bytes|
      invariant out + Encode(bytes[i..]) == Encode(bytes)
    {
      var pair := [Digit(bytes[i] / 16), Digit(bytes[i] % 16)];
      assert bytes[i..][0] == bytes[i] && bytes[i..][1..] == bytes[i + 1..];
      assert out + (pair + Encode(bytes[i + 1..])) == out + pair + Encode(bytes[i + 1..]);
      out := out + pair;
    }
  }

  ghost function Prepended(bytes: seq<Byte>, r: Option<seq<Byte>>): Option<seq<Byte>> {
    if r.None? then None else Some(bytes + r.value)
  }

  lemma PrependedTwice(bytes: seq<Byte>, b: Byte, r: Option<seq<Byte>>)
    ensures Prepended(bytes, Prepended([b], r)) == Prepended(bytes + [b], r)
  {
    if r.Some? { assert bytes + ([b] + r.value) == bytes + [b] + r.value; }
  }

  lemma DecodeStep(s: string, i: nat)
    requires i + 2 <= |s|
    ensures var hi, lo := DigitValue(s[i]), DigitValue(s[i + 1]);
            Decode(s[i..]) == if hi.None? || lo.None? then None
                              else Prepended([ByteOf(hi.value, lo.value)], Decode(s[i + 2..]))
  {
    assert s[i..][2..] == s[i + 2..];
  }

  lemma NothingPrepended(s: string)
    ensures Decode(s) == Prepended([], Decode(s[0..]))
  {
    assert s[0..] == s;
    if Decode(s).Some? { assert [] + Decode(s).value == Decode(s).value; }
  }

  /** One more pair of digits decoded. */
  lemma DecodeMore(s: string, i: nat, out: seq<Byte>)
    requires i + 2 <= |s| && Decode(s) == Prepended(out, Decode(s[i..]))
    ensures var hi, lo := DigitValue(s[i]), DigitValue(s[i + 1]);
            Decode(s) == if hi.None? || lo.None? then None
                         else Prepended(out + [ByteOf(hi.value, lo.value)], Decode(s[i + 2..]))
  {
    DecodeStep(s, i);
    var hi, lo := DigitValue(s[i]), DigitValue(s[i + 1]);
    if hi.Some? && lo.Some? { PrependedTwice(out, ByteOf(hi.value, lo.value), Decode(s[i + 2..])); }
  }

  method DecodeText(s: string) returns (r: Option<seq<Byte>>)
    ensures r == Decode(s)
  {
    if |s| % 2 != 0 {
      OddIsNotHex(s);
      return None;
    }
    var out: seq<Byte> := [];
    var i := 0;
    NothingPrepended(s);
    while i < |s|
      invariant i == 2 * |out| <= |s|
      invariant Decode(s) == Prepended(out, Decode(s[i..]))
      decreases |s| - i
    {
      DecodeMore(s, i, out);
      var hi, lo := DigitValue(s[i]), DigitValue(s[i + 1]);
      if hi.None? || lo.None? {
        return None;
      }
      out := out + [ByteOf(hi.value, lo.value)];
      i := i + 2;
    }
    assert s[i..] == "" && out + [] == out;
    return Some(out);
  }

  lemma {:induction false} OddIsNotHex(s: string)
    requires |s| % 2 != 0
    ensures Decode(s).None?
  {
    if |s| > 1 {
      OddIsNotHex(s[2..]);
    }
  }

  predicate IsHexDigit(c: char) {
    '0' <= c <= '9' || 'a' <= c <= 'f' || 'A' <= c <= 'F'
  }

  /** A text is hash text exactly when it has an even number of characters and all are hex digits of either case. */
  lemma {:induction false} DecodesExactly(s: string)
    ensures Decode(s).Some? <==> |s| % 2 == 0 && forall i :: 0 <= i < |s| ==> IsHexDigit(s[i])
  {
    if |s| >= 2 {
      DecodesExactly(s[2..]);
      assert forall i :: 2 <= i < |s| ==> s[i] == s[2..][i - 2];
      assert forall i :: 0 <= i < |s[2..]| ==> s[2..][i] == s[i + 2];
      assert DigitValue(s[0]).Some? <==> IsHexDigit(s[0]);
      assert DigitValue(s[1]).Some? <==> IsHexDigit(s[1]);
    }
  }

  lemma {:induction false} ZerosEncode(bytes: seq<Byte>)
    requires forall i :: 0 <= i < |bytes| ==> bytes[i] == 0
    ensures forall i :: 0 <= i < |Encode(bytes)| ==> Encode(bytes)[i] == '0'
  {
    if bytes != [] { ZerosEncode(bytes[1..]); }
  }

  /** Decoding undoes encoding. */
  lemma {:induction false} DecodeOfEncode(bytes: seq<Byte>)
    ensures Decode(Encode(bytes)) == Some(bytes)
  {
    if bytes != [] {
      assert Encode(bytes)[2..] == Encode(bytes[1..]);
      DecodeOfEncode(bytes[1..]);
      DigitRoundTrip(bytes[0] / 16);
      DigitRoundTrip(bytes[0] % 16);
      assert [bytes[0]] + bytes[1..] == bytes;
    }
  }

  lemma DigitRoundTrip(n: int)
    requires 0 <= n < 16
    ensures DigitValue(Digit(n)) == Some(n)
  {
  }

  lemma DigitOfValue(c: char)
    requires DigitValue(c).Some?
    ensures 0 <= DigitValue(c).value < 16 && Digit(DigitValue(c).value) == Lower(c)
  {
  }

  /** Encoding what was decoded gives the text back in lower case. */
  lemma {:induction false} EncodeOfDecode(s: string)
    requires Decode(s).Some?
    ensures Encode(Decode(s).value) == LowerAll(s)
  {
    if s != "" {
      EncodeOfDecode(s[2..]);
      DigitOfValue(s[0]);
      DigitOfValue(s[1]);
      LowerPair(s);
      EncodeCons(DigitValue(s[0]).value, DigitValue(s[1]).value, Decode(s[2..]).value);
    }
  }

  lemma LowerPair(s: string)
    requires |s| >= 2
    ensures LowerAll(s) == [Lower(s[0]), Lower(s[1])] + LowerAll(s[2..])
  {
  }

  lemma EncodeCons(hi: int, lo: int, rest: seq<Byte>)
    requires 0 <= hi < 16 && 0 <= lo < 16
    ensures Encode([ByteOf(hi, lo)] + rest) == [Digit(hi), Digit(lo)] + Encode(rest)
  {
    var b := ByteOf(hi, lo);
    assert ([b] + rest)[1..] == rest && ([b] + rest)[0] == b;
  }
}
