/** Hexadecimal text: dm_utils_hex_to_str and dm_utils_str_to_hex of eng/dev_model/dm_utils.c. */
module Hex {
  type Byte = b: int | 0 <= b < 256

  type Nibble = n: int | 0 <= n < 16

  predicate IsDigit(c: char) {
    '0' <= c <= '9' || 'A' <= c <= 'F'
  }

  /** Upper-case digit of a nibble. */
  function Digit(n: Nibble): (c: char)
    ensures IsDigit(c)
  {
    if n <= 9 then ('0' as int + n) as char else ('A' as int + n - 10) as char
  }

  /** Value of a digit; any other character leaves the value of the digit before it. */
  function Value(c: char, before: Nibble): (n: Nibble) {
    if '0' <= c <= '9' then c as int - '0' as int
    else if 'A' <= c <= 'F' then c as int - 'A' as int + 10
    else before
  }

  function Encode(bytes: seq<Byte>): (s: string)
    ensures |s| == 2 * |bytes|
  {
    if bytes == [] then ""
    else [Digit(bytes[0] / 16), Digit(bytes[0] % 16)] + Encode(bytes[1..])
  }

  /** The bytes of the digit pairs; a single character at the end is not a pair. */
  function Decode(s: string, before: Nibble): (bytes: seq<Byte>)
    ensures |bytes| == |s| / 2
  {
    if |s| < 2 then []
    else
      var hi := Value(s[0], before);
      var lo := Value(s[1], hi);
      [hi * 16 + lo] + Decode(s[2..], lo)
  }

  /** The next two digits of what is encoded from position i on. */
  lemma {:induction false} EncodeStep(input: seq<Byte>, i: nat, whole: string)
    requires i < |input| && 2 * i <= |whole| && Encode(input[i..]) == whole[2 * i..]
    ensures 2 * i + 1 < |whole| && whole[2 * i] == Digit(input[i] / 16) && whole[2 * i + 1] == Digit(input[i] % 16)
    ensures Encode(input[i + 1..]) == whole[2 * i + 2..]
  {
    hide Digit;
    var rest := Encode(input[i..]);
    assert input[i..][1..] == input[i + 1..];
    assert rest[0] == whole[2 * i] && rest[1] == whole[2 * i + 1] && rest[2..] == whole[2 * i + 2..];
  }

  /** The next byte of what is decoded from position i on. */
  lemma {:induction false} DecodeStep(s: string, i: nat, before: Nibble, whole: seq<Byte>, at: nat)
    requires i + 1 < |s| && at <= |whole| && Decode(s[i..], before) == whole[at..]
    ensures var hi := Value(s[i], before);
            var lo := Value(s[i + 1], hi);
            && at < |whole| && whole[at] == hi * 16 + lo && Decode(s[i + 2..], lo) == whole[at + 1..]
  {
    hide Value;
    var rest := Decode(s[i..], before);
    assert s[i..][2..] == s[i + 2..];
    assert rest[0] == whole[at] && rest[1..] == whole[at + 1..];
  }

  /** dm_utils_hex_to_str: an empty input is refused. */
  method HexToStr(input: seq<Byte>) returns (output: array?<char>)
    ensures output == null <==> input == []
    ensures output != null ==> fresh(output) && output[..] == Encode(input)
  {
    hide Digit, Encode;
    if |input| <= 0 {
      return null;
    }
    ghost var whole := Encode(input);
    var out := new char[2 * |input|](_ => '\0');
    assert input[0..] == input && whole[0..] == whole;
    for index := 0 to |input|
      invariant Encode(input[index..]) == whole[2 * index..]
      invariant forall k :: 0 <= k < 2 * index ==> out[k] == whole[k]
    {
      EncodeStep(input, index, whole);
      out[index * 2] := Digit(input[index] / 16);
      out[index * 2 + 1] := Digit(input[index] % 16);
    }
    output := out;
  }

  /** dm_utils_str_to_hex: an empty input and one of odd length are refused; the digit read last is kept across characters. */
  method StrToHex(input: string) returns (output: array?<Byte>)
    ensures output == null <==> input == "" || |input| % 2 != 0
    ensures output != null ==> fresh(output) && output[..] == Decode(input, 0)
  {
    hide Value, Decode;
    if |input| <= 0 || |input| % 2 != 0 {
      return null;
    }
    ghost var whole := Decode(input, 0);
    var out := new Byte[|input| / 2](_ => 0);
    var iter: Nibble := 0;
    var index, at := 0, 0;
    assert input[0..] == input && whole[0..] == whole;
    while index < |input|
      invariant 0 <= at <= out.Length && index == 2 * at
      invariant Decode(input[index..], iter) == whole[at..]
      invariant forall k :: 0 <= k < at ==> out[k] == whole[k]
      invariant forall k :: at <= k < out.Length ==> out[k] == 0
    {
      DecodeStep(input, index, iter, whole, at);
      iter := Value(input[index], iter);
      out[at] := out[at] + iter * 16;
      iter := Value(input[index + 1], iter);
      out[at] := out[at] + iter;
      index, at := index + 2, at + 1;
    }
    output := out;
  }

  // ---------------------------------------------------------------- the digits

  lemma {:induction false} DigitIs(n: Nibble)
    ensures Digit(n) == "0123456789ABCDEF"[n]
  {
  }

  /** A digit has its place as value; another character has that of the digit before it. */
  lemma {:induction false} ValueIs(c: char, before: Nibble)
    ensures forall n: Nibble :: Value("0123456789ABCDEF"[n], before) == n
    ensures c !in "0123456789ABCDEF" ==> Value(c, before) == before
  {
    forall n: Nibble
      ensures Value("0123456789ABCDEF"[n], before) == n
    {
      DigitIs(n);
      ValueOfDigit(n, before);
    }
    if IsDigit(c) {
      var n := Value(c, before);
      DigitIs(n);
      assert Digit(n) == c && "0123456789ABCDEF"[n] in "0123456789ABCDEF";
    }
  }

  /** Each byte is two digits, the high one first. */
  lemma {:induction false} EncodeAt(bytes: seq<Byte>, i: nat)
    requires i < |bytes|
    ensures Encode(bytes)[2 * i] == "0123456789ABCDEF"[bytes[i] / 16]
    ensures Encode(bytes)[2 * i + 1] == "0123456789ABCDEF"[bytes[i] % 16]
  {
    hide Digit;
    DigitIs(bytes[0] / 16);
    DigitIs(bytes[0] % 16);
    if i > 0 {
      EncodeAt(bytes[1..], i - 1);
      assert Encode(bytes)[2..] == Encode(bytes[1..]);
      assert Encode(bytes)[2 * i] == Encode(bytes)[2..][2 * (i - 1)];
      assert Encode(bytes)[2 * i + 1] == Encode(bytes)[2..][2 * (i - 1) + 1];
    }
  }

  // ---------------------------------------------------------------- round trips

  lemma {:induction false} ByteOf(b: Byte)
    ensures (b / 16) * 16 + b % 16 == b
  {
  }

  lemma {:induction false} NibblesOf(hi: Nibble, lo: Nibble)
    ensures (hi * 16 + lo) / 16 == hi && (hi * 16 + lo) % 16 == lo
  {
  }

  lemma {:induction false} ValueOfDigit(n: Nibble, before: Nibble)
    ensures Value(Digit(n), before) == n
  {
  }

  /** Decoding inverts encoding on all byte strings. */
  lemma {:induction false} DecodeEncode(bytes: seq<Byte>, before: Nibble)
    ensures Decode(Encode(bytes), before) == bytes
  {
    hide Value, Digit;
    if bytes != [] {
      var hi, lo := bytes[0] / 16, bytes[0] % 16;
      DecodeEncode(bytes[1..], lo);
      ValueOfDigit(hi, before);
      ValueOfDigit(lo, hi);
      ByteOf(bytes[0]);
      assert Encode(bytes)[2..] == Encode(bytes[1..]);
    }
  }

  /** The text with every character that is not a digit replaced by the digit before it. */
  function Repaired(s: string, before: Nibble): (r: string)
    ensures |r| == |s|
  {
    if s == "" then "" else [Digit(Value(s[0], before))] + Repaired(s[1..], Value(s[0], before))
  }

  /** Encoding what was decoded gives the repaired text. */
  lemma {:induction false} EncodeDecode(s: string, before: Nibble)
    requires |s| % 2 == 0
    ensures Encode(Decode(s, before)) == Repaired(s, before)
  {
    hide Value, Digit;
    if s != "" {
      var hi := Value(s[0], before);
      var lo := Value(s[1], hi);
      EncodeDecode(s[2..], lo);
      NibblesOf(hi, lo);
      assert s[1..][1..] == s[2..];
      assert Decode(s, before)[1..] == Decode(s[2..], lo);
      assert Repaired(s, before) == [Digit(hi)] + ([Digit(lo)] + Repaired(s[2..], lo));
    }
  }

  lemma {:induction false} RepairedSame(s: string, before: Nibble)
    ensures Repaired(s, before) == s <==> forall k :: 0 <= k < |s| ==> IsDigit(s[k])
  {
    if s != "" {
      RepairedSame(s[1..], Value(s[0], before));
      var r := Repaired(s[1..], Value(s[0], before));
      assert s == [s[0]] + s[1..] && Repaired(s, before) == [Digit(Value(s[0], before))] + r;
      assert Repaired(s, before)[1..] == r;
      if forall k :: 0 <= k < |s| ==> IsDigit(s[k]) {
        assert forall k :: 0 <= k < |s| - 1 ==> s[1..][k] == s[k + 1];
      }
    }
  }

  /** Encoding inverts decoding exactly on the texts of upper-case digits. */
  lemma {:induction false} EncodeInvertsDecode(s: string)
    requires |s| % 2 == 0
    ensures Encode(Decode(s, 0)) == s <==> forall k :: 0 <= k < |s| ==> IsDigit(s[k])
  {
    EncodeDecode(s, 0);
    RepairedSame(s, 0);
  }
}
