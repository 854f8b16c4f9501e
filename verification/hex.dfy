/**
 `byteArray2Hex`: every byte of a digest rendered as two lower-case
 hexadecimal digits (`%02x` of the byte read as unsigned), and the decoder
 that inverts it.
 */
module Hex {
  import opened Wrappers
  import opened JavaTypes

  /** The unsigned reading of a Java byte, as `%x` formats it: the byte's residue modulo 256. */
  function Unsigned(b: int8): (u: nat)
    ensures u < 0x100
    ensures (u - b as int) % 0x100 == 0
  {
    if b < 0 then b + 0x100 else b
  }

  /** The inverse of `Unsigned`. */
  function Signed(u: nat): (b: int8)
    requires u < 0x100
    ensures Unsigned(b) == u
  {
    if u < 0x80 then u else u - 0x100
  }

  predicate IsHexDigit(c: char) {
    '0' <= c <= '9' || 'a' <= c <= 'f'
  }

  function HexDigit(d: nat): (c: char)
    requires d < 16
    ensures IsHexDigit(c)
  {
    if d < 10 then ('0' as int + d) as char else ('a' as int + d - 10) as char
  }

  function HexValue(c: char): (d: Option<nat>)
    ensures d.Some? <==> IsHexDigit(c)
    ensures d.Some? ==> d.value < 16 && HexDigit(d.value) == c
  {
    if '0' <= c <= '9' then Some(c as int - '0' as int)
    else if 'a' <= c <= 'f' then Some(c as int - 'a' as int + 10)
    else None
  }

  /** The two digits of one byte, high nibble first: read as a base-16 numeral they denote the unsigned byte. */
  function ByteText(b: int8): (s: string)
    ensures |s| == 2 && HexValue(s[0]).Some? && HexValue(s[1]).Some?
    ensures 16 * HexValue(s[0]).value + HexValue(s[1]).value == Unsigned(b)
  {
    var u := Unsigned(b);
    Nibbles(u);
    DigitRoundTrip(u / 16);
    DigitRoundTrip(u % 16);
    [HexDigit(u / 16), HexDigit(u % 16)]
  }

  /** `byteArray2Hex`: the digits of every byte, in order. */
  function Encode(hash: seq<int8>): (s: string)
    ensures |s| == 2 * |hash|
    decreases |hash|
  {
    if |hash| == 0 then "" else Encode(hash[..|hash| - 1]) + ByteText(hash[|hash| - 1])
  }

  /** Byte i of the digest is rendered at positions 2i and 2i + 1, zero-padded to two digits. */
  lemma {:induction false} EncodeLayout(hash: seq<int8>)
    ensures forall i :: 0 <= i < |hash| ==> Encode(hash)[2 * i..2 * i + 2] == ByteText(hash[i])
    ensures forall i :: 0 <= i < |Encode(hash)| ==> IsHexDigit(Encode(hash)[i])
    decreases |hash|
  {
    if |hash| > 0 {
      var init := hash[..|hash| - 1];
      EncodeLayout(init);
      var s := Encode(hash);
      assert s == Encode(init) + ByteText(hash[|hash| - 1]);
      assert forall i :: 0 <= i < |hash| - 1 ==> s[2 * i..2 * i + 2] == Encode(init)[2 * i..2 * i + 2];
    }
  }

  /** Reads pairs of lower-case hex digits back into bytes; anything else is rejected. */
  function Decode(s: string): Option<seq<int8>>
    decreases |s|
  {
    if |s| == 0 then Some([])
    else if |s| == 1 then None
    else
      var init := Decode(s[..|s| - 2]);
      var hi := HexValue(s[|s| - 2]);
      var lo := HexValue(s[|s| - 1]);
      if init.Some? && hi.Some? && lo.Some? then Some(init.value + [Signed(16 * hi.value + lo.value)]) else None
  }

  lemma Nibbles(u: nat)
    requires u < 0x100
    ensures 16 * (u / 16) + u % 16 == u
  {
  }

  lemma NibbleSplit(hi: nat, lo: nat)
    requires hi < 16 && lo < 16
    ensures (16 * hi + lo) / 16 == hi && (16 * hi + lo) % 16 == lo
  {
  }

  /** Decoding the two digits of a byte gives the byte. */
  lemma DecodeByte(init: string, b: int8)
    requires Decode(init).Some?
    ensures Decode(init + ByteText(b)) == Some(Decode(init).value + [b])
  {
    var s := init + ByteText(b);
    var u := Unsigned(b);
    ByteDigits(b);
    assert s[..|s| - 2] == init;
    assert HexValue(s[|s| - 2]) == Some(u / 16);
    assert HexValue(s[|s| - 1]) == Some(u % 16);
    DecodeUnfold(s, Decode(init).value, u / 16, u % 16);
  }

  /** Two more digits after a decodable prefix append one byte. */
  lemma DecodeUnfold(s: string, init: seq<int8>, hi: nat, lo: nat)
    requires |s| >= 2 && hi < 16 && lo < 16
    requires Decode(s[..|s| - 2]) == Some(init)
    requires HexValue(s[|s| - 2]) == Some(hi) && HexValue(s[|s| - 1]) == Some(lo)
    ensures Decode(s) == Some(init + [Signed(16 * hi + lo)])
  {
  }

  /** Each digit of a byte reads back as its nibble, and the nibbles give back the byte. */
  lemma ByteDigits(b: int8)
    ensures var u := Unsigned(b);
      HexValue(ByteText(b)[0]) == Some(u / 16) && HexValue(ByteText(b)[1]) == Some(u % 16) &&
      Signed(16 * (u / 16) + u % 16) == b
  {
    var u := Unsigned(b);
    Nibbles(u);
    DigitRoundTrip(u / 16);
    DigitRoundTrip(u % 16);
    SignedUnsigned(b);
  }

  lemma DigitRoundTrip(d: nat)
    requires d < 16
    ensures HexValue(HexDigit(d)) == Some(d)
  {
  }

  lemma SignedUnsigned(b: int8)
    ensures Signed(Unsigned(b)) == b
  {
  }

  lemma {:induction false} DecodeEncode(hash: seq<int8>)
    ensures Decode(Encode(hash)) == Some(hash)
    decreases |hash|
  {
    if |hash| > 0 {
      var init := hash[..|hash| - 1];
      DecodeEncode(init);
      assert Encode(hash) == Encode(init) + ByteText(hash[|hash| - 1]);
      DecodeByte(Encode(init), hash[|hash| - 1]);
      assert init + [hash[|hash| - 1]] == hash;
    }
  }

  lemma {:induction false} EncodeDecode(s: string)
    requires Decode(s).Some?
    ensures Encode(Decode(s).value) == s
    decreases |s|
  {
    if |s| > 0 {
      var init := s[..|s| - 2];
      EncodeDecode(init);
      var hi := HexValue(s[|s| - 2]).value;
      var lo := HexValue(s[|s| - 1]).value;
      NibbleSplit(hi, lo);
      var bs := Decode(s).value;
      assert bs == Decode(init).value + [Signed(16 * hi + lo)];
      assert bs[..|bs| - 1] == Decode(init).value;
      assert ByteText(bs[|bs| - 1]) == s[|s| - 2..];
      assert s == init + s[|s| - 2..];
    }
  }

  /** Distinct digests give distinct strings, so the hash field identifies the digest. */
  lemma EncodeInjective(a: seq<int8>, b: seq<int8>)
    requires Encode(a) == Encode(b)
    ensures a == b
  {
    DecodeEncode(a);
    DecodeEncode(b);
  }
}
