/**
 * The base 64 encoding of section 4 of RFC 4648: every group of three bytes
 * becomes four characters of the 64-character alphabet of its Table 1; a
 * final group of one or two bytes becomes two or three characters followed
 * by "==" or "=". The decoder is strict in the sense of sections 3.3 and 3.5
 * of the same RFC: it accepts only alphabet characters, padding only in the
 * last quantum and no set pad bits, which makes it an exact inverse of the
 * encoder.
 */
module Base64 {
  import opened Wrappers

  newtype byte = x: int | 0 <= x < 256

  /** A 6-bit group: the index of one alphabet character. */
  type Sextet = x: int | 0 <= x < 64

  const Uppers: string := "ABCDEFGHIJKLMNOPQRSTUVWXYZ"
  const Lowers: string := "abcdefghijklmnopqrstuvwxyz"
  const Digits: string := "0123456789"

  /** Table 1 of RFC 4648, value 0 first. */
  const Alphabet: string := Uppers + Lowers + Digits + "+/"

  const Pad: char := '='

  /** The character of value v; ValueOf takes it back to v. */
  function CharOf(v: Sextet): (c: char)
    ensures c != Pad
    ensures ValueOf(c) == Some(v)
  {
    if v < 26 then ('A' as int + v) as char
    else if v < 52 then ('a' as int + (v - 26)) as char
    else if v < 62 then ('0' as int + (v - 52)) as char
    else if v == 62 then '+'
    else '/'
  }

  /** The value of an alphabet character; None for every other character. */
  function ValueOf(c: char): (r: Option<Sextet>)
    ensures c == Pad ==> r == None
  {
    if 'A' <= c <= 'Z' then Some(c as int - 'A' as int)
    else if 'a' <= c <= 'z' then Some(c as int - 'a' as int + 26)
    else if '0' <= c <= '9' then Some(c as int - '0' as int + 52)
    else if c == '+' then Some(62)
    else if c == '/' then Some(63)
    else None
  }

  predicate IsAlphabetChar(c: char) {
    ValueOf(c).Some?
  }

  lemma CharOfValueOf(c: char)
    requires IsAlphabetChar(c)
    ensures CharOf(ValueOf(c).value) == c
  {
  }

  /** CharOf is Table 1: the character of value v is Alphabet[v]. */
  lemma CharOfIsAlphabet(v: Sextet)
    ensures |Alphabet| == 64
    ensures CharOf(v) == Alphabet[v]
  {
    if v < 26 {
      assert Alphabet[v] == Uppers[v];
    } else if v < 52 {
      assert Alphabet[v] == Lowers[v - 26];
    } else if v < 62 {
      assert Alphabet[v] == Digits[v - 52];
    }
  }

  /** The characters ValueOf accepts are exactly those of Table 1. */
  lemma AlphabetMembership(c: char)
    ensures IsAlphabetChar(c) <==> c in Alphabet
  {
    if IsAlphabetChar(c) {
      CharOfIsAlphabet(ValueOf(c).value);
    }
    if c in Alphabet {
      CharOfIsAlphabet(0);
      var k :| 0 <= k < |Alphabet| && Alphabet[k] == c;
      CharOfIsAlphabet(k);
    }
  }

  /** The number of '=' characters that end the encoding of n bytes. */
  function PadCount(n: nat): nat {
    (3 - n % 3) % 3
  }

  // The bit regrouping of Figure 1 of RFC 4648: bytes b0 b1 b2 laid out most
  // significant bit first are read as the sextets S0 S1 S2 S3.

  function S0(b0: byte): Sextet { b0 as int / 4 }
  function S1(b0: byte, b1: byte): Sextet { (b0 as int % 4) * 16 + b1 as int / 16 }
  function S2(b1: byte, b2: byte): Sextet { (b1 as int % 16) * 4 + b2 as int / 64 }
  function S3(b2: byte): Sextet { b2 as int % 64 }

  // And back: sextets v0 v1 v2 v3 give the bytes B0 B1 B2.

  function B0(v0: Sextet, v1: Sextet): byte { (v0 as int * 4 + v1 as int / 16) as byte }
  function B1(v1: Sextet, v2: Sextet): byte { ((v1 as int % 16) * 16 + v2 as int / 4) as byte }
  function B2(v2: Sextet, v3: Sextet): byte { ((v2 as int % 4) * 64 + v3 as int) as byte }

  lemma BytesFromSextets(b0: byte, b1: byte, b2: byte)
    ensures B0(S0(b0), S1(b0, b1)) == b0
    ensures B1(S1(b0, b1), S2(b1, b2)) == b1
    ensures B2(S2(b1, b2), S3(b2)) == b2
  {
  }

  lemma SextetsFromBytes(v0: Sextet, v1: Sextet, v2: Sextet, v3: Sextet)
    ensures S0(B0(v0, v1)) == v0
    ensures S1(B0(v0, v1), B1(v1, v2)) == v1
    ensures S2(B1(v1, v2), B2(v2, v3)) == v2
    ensures S3(B2(v2, v3)) == v3
  {
  }

  /** The encoder sets the pad bits of a final quantum to zero. */
  lemma PadBitsZero(b0: byte, b1: byte)
    ensures S1(b0, 0) % 16 == 0 && S2(b1, 0) % 4 == 0
  {
  }

  /** Three bytes as four alphabet characters. */
  function EncodeQuantum(b0: byte, b1: byte, b2: byte): (s: string)
    ensures |s| == 4
  {
    [CharOf(S0(b0)), CharOf(S1(b0, b1)), CharOf(S2(b1, b2)), CharOf(S3(b2))]
  }

  /** A final quantum of 8 bits: two characters and "==". */
  function EncodeFinal1(b0: byte): (s: string)
    ensures |s| == 4
  {
    [CharOf(S0(b0)), CharOf(S1(b0, 0)), Pad, Pad]
  }

  /** A final quantum of 16 bits: three characters and "=". */
  function EncodeFinal2(b0: byte, b1: byte): (s: string)
    ensures |s| == 4
  {
    [CharOf(S0(b0)), CharOf(S1(b0, b1)), CharOf(S2(b1, 0)), Pad]
  }

  /** The encoding of `data`, 4 * ceil(|data| / 3) characters long. */
  function Encode(data: seq<byte>): (s: string)
    ensures |s| == 4 * ((|data| + 2) / 3)
    decreases |data|
  {
    if |data| == 0 then ""
    else if |data| == 1 then EncodeFinal1(data[0])
    else if |data| == 2 then EncodeFinal2(data[0], data[1])
    else EncodeQuantum(data[0], data[1], data[2]) + Encode(data[3..])
  }

  /** Every character of an encoding is from the alphabet, except the PadCount final '=' characters. */
  lemma {:induction false} EncodeAlphabet(data: seq<byte>)
    ensures forall i :: 0 <= i < |Encode(data)| - PadCount(|data|) ==> IsAlphabetChar(Encode(data)[i])
    ensures forall i :: |Encode(data)| - PadCount(|data|) <= i < |Encode(data)| ==> Encode(data)[i] == Pad
    decreases |data|
  {
    if |data| == 1 {
      assert Encode(data) == EncodeFinal1(data[0]);
    } else if |data| == 2 {
      assert Encode(data) == EncodeFinal2(data[0], data[1]);
    } else if |data| > 2 {
      EncodeAlphabet(data[3..]);
      var rest := Encode(data[3..]);
      var s := Encode(data);
      assert s == EncodeQuantum(data[0], data[1], data[2]) + rest;
      var p := PadCount(|data|);
      assert PadCount(|data[3..]|) == p;
      assert |s| == 4 + |rest|;
      forall i | 0 <= i < |s| - p ensures IsAlphabetChar(s[i]) {
        if i >= 4 { assert s[i] == rest[i - 4]; assert IsAlphabetChar(rest[i - 4]); }
      }
      forall i | |s| - p <= i < |s| ensures s[i] == Pad {
        assert s[i] == rest[i - 4];
      }
    }
  }

  /** Four alphabet characters back into three bytes. */
  function DecodeQuantum(c0: char, c1: char, c2: char, c3: char): (r: Option<seq<byte>>)
    ensures r.Some? ==> |r.value| == 3
  {
    if IsAlphabetChar(c0) && IsAlphabetChar(c1) && IsAlphabetChar(c2) && IsAlphabetChar(c3) then
      var v0, v1, v2, v3 := ValueOf(c0).value, ValueOf(c1).value, ValueOf(c2).value, ValueOf(c3).value;
      Some([B0(v0, v1), B1(v1, v2), B2(v2, v3)])
    else None
  }

  /** The last quantum, which may end in one or two '=' characters. */
  function DecodeFinal(c0: char, c1: char, c2: char, c3: char): Option<seq<byte>>
  {
    if c2 == Pad && c3 == Pad then
      if IsAlphabetChar(c0) && IsAlphabetChar(c1) && ValueOf(c1).value % 16 == 0 then
        Some([B0(ValueOf(c0).value, ValueOf(c1).value)])
      else None
    else if c3 == Pad then
      if IsAlphabetChar(c0) && IsAlphabetChar(c1) && IsAlphabetChar(c2) && ValueOf(c2).value % 4 == 0 then
        var v0, v1, v2 := ValueOf(c0).value, ValueOf(c1).value, ValueOf(c2).value;
        Some([B0(v0, v1), B1(v1, v2)])
      else None
    else DecodeQuantum(c0, c1, c2, c3)
  }

  /**
   * Strict decoding: None for a length that is not a multiple of 4, a
   * character outside the alphabet, padding before the last quantum, or
   * pad bits that are not zero.
   */
  function Decode(s: string): Option<seq<byte>>
  {
    if |s| == 0 then Some([])
    else if |s| < 4 then None
    else if |s| == 4 then DecodeFinal(s[0], s[1], s[2], s[3])
    else
      var q, rest := DecodeQuantum(s[0], s[1], s[2], s[3]), Decode(s[4..]);
      if q.Some? && rest.Some? then Some(q.value + rest.value) else None
  }

  lemma DecodeEncodeQuantum(b0: byte, b1: byte, b2: byte)
    ensures var s := EncodeQuantum(b0, b1, b2); DecodeQuantum(s[0], s[1], s[2], s[3]) == Some([b0, b1, b2])
  {
    var v0, v1, v2, v3 := S0(b0), S1(b0, b1), S2(b1, b2), S3(b2);
    assert B0(v0, v1) == b0 && B1(v1, v2) == b1 && B2(v2, v3) == b2 by { BytesFromSextets(b0, b1, b2); }
  }

  lemma DecodeEncodeFinal1(b0: byte)
    ensures var s := EncodeFinal1(b0); DecodeFinal(s[0], s[1], s[2], s[3]) == Some([b0])
  {
    var v0, v1 := S0(b0), S1(b0, 0);
    assert v1 % 16 == 0 by { PadBitsZero(b0, 0); }
    assert B0(v0, v1) == b0 by { BytesFromSextets(b0, 0, 0); }
  }

  lemma DecodeEncodeFinal2(b0: byte, b1: byte)
    ensures var s := EncodeFinal2(b0, b1); DecodeFinal(s[0], s[1], s[2], s[3]) == Some([b0, b1])
  {
    var v0, v1, v2 := S0(b0), S1(b0, b1), S2(b1, 0);
    assert v2 % 4 == 0 by { PadBitsZero(b0, b1); }
    assert B0(v0, v1) == b0 && B1(v1, v2) == b1 by { BytesFromSextets(b0, b1, 0); }
  }

  lemma DecodeEncode1(data: seq<byte>)
    requires |data| == 1
    ensures Decode(Encode(data)) == Some(data)
  {
    DecodeEncodeFinal1(data[0]);
    assert data == [data[0]];
  }

  lemma DecodeEncode2(data: seq<byte>)
    requires |data| == 2
    ensures Decode(Encode(data)) == Some(data)
  {
    DecodeEncodeFinal2(data[0], data[1]);
    assert data == [data[0], data[1]];
  }

  lemma DecodeEncode3(data: seq<byte>)
    requires |data| == 3
    ensures Decode(Encode(data)) == Some(data)
  {
    DecodeEncodeQuantum(data[0], data[1], data[2]);
    assert Encode(data) == EncodeQuantum(data[0], data[1], data[2]) + Encode([]);
    assert data == [data[0], data[1], data[2]];
  }

  lemma SplitFirstThree(data: seq<byte>)
    requires |data| >= 3
    ensures data == [data[0], data[1], data[2]] + data[3..]
  {
  }

  /** A string of more than one quantum decodes quantum by quantum. */
  lemma DecodeConcat(q: string, rest: string)
    requires |q| == 4 && |rest| >= 4
    requires DecodeQuantum(q[0], q[1], q[2], q[3]).Some? && Decode(rest).Some?
    ensures Decode(q + rest) == Some(DecodeQuantum(q[0], q[1], q[2], q[3]).value + Decode(rest).value)
  {
    var s := q + rest;
    assert s[..4] == q && s[4..] == rest;
  }

  /** Decoding an encoding gives back the bytes. */
  lemma {:induction false} DecodeEncode(data: seq<byte>)
    ensures Decode(Encode(data)) == Some(data)
    decreases |data|
  {
    if |data| == 1 {
      DecodeEncode1(data);
    } else if |data| == 2 {
      DecodeEncode2(data);
    } else if |data| == 3 {
      DecodeEncode3(data);
    } else if |data| > 3 {
      var q, rest := EncodeQuantum(data[0], data[1], data[2]), Encode(data[3..]);
      assert Encode(data) == q + rest;
      DecodeEncode(data[3..]);
      DecodeEncodeQuantum(data[0], data[1], data[2]);
      DecodeConcat(q, rest);
      SplitFirstThree(data);
    }
  }

  lemma EncodeDecodeQuantum(c0: char, c1: char, c2: char, c3: char)
    requires DecodeQuantum(c0, c1, c2, c3).Some?
    ensures var q := DecodeQuantum(c0, c1, c2, c3).value; EncodeQuantum(q[0], q[1], q[2]) == [c0, c1, c2, c3]
  {
    SextetsFromBytes(ValueOf(c0).value, ValueOf(c1).value, ValueOf(c2).value, ValueOf(c3).value);
    CharOfValueOf(c0);
    CharOfValueOf(c1);
    CharOfValueOf(c2);
    CharOfValueOf(c3);
  }

  lemma EncodeDecodeFinal(c0: char, c1: char, c2: char, c3: char)
    requires DecodeFinal(c0, c1, c2, c3).Some?
    ensures Encode(DecodeFinal(c0, c1, c2, c3).value) == [c0, c1, c2, c3]
  {
    if c2 == Pad && c3 == Pad {
      var v0, v1 := ValueOf(c0).value, ValueOf(c1).value;
      SextetsFromBytes(v0, v1, 0, 0);
      CharOfValueOf(c0);
      CharOfValueOf(c1);
    } else if c3 == Pad {
      var v0, v1, v2 := ValueOf(c0).value, ValueOf(c1).value, ValueOf(c2).value;
      SextetsFromBytes(v0, v1, v2, 0);
      assert S2(B1(v1, v2), 0) == v2;
      CharOfValueOf(c0);
      CharOfValueOf(c1);
      CharOfValueOf(c2);
    } else {
      EncodeDecodeQuantum(c0, c1, c2, c3);
      var q := DecodeQuantum(c0, c1, c2, c3).value;
      assert Encode(q) == EncodeQuantum(q[0], q[1], q[2]) + Encode([]);
    }
  }

  /** One unfolding of Encode: a leading full quantum is encoded on its own. */
  lemma EncodeCons(d: seq<byte>)
    requires |d| >= 3
    ensures Encode(d) == EncodeQuantum(d[0], d[1], d[2]) + Encode(d[3..])
  {
  }

  /** One unfolding of Decode: a string of more than one quantum decodes its first quantum, then the rest. */
  lemma DecodeCons(s: string)
    requires |s| > 4
    ensures Decode(s).Some? <==> DecodeQuantum(s[0], s[1], s[2], s[3]).Some? && Decode(s[4..]).Some?
    ensures Decode(s).Some? ==> Decode(s).value == DecodeQuantum(s[0], s[1], s[2], s[3]).value + Decode(s[4..]).value
  {
  }

  /** A leading quantum of three bytes is encoded on its own. */
  lemma EncodePrefixQuantum(q: seq<byte>, rest: seq<byte>)
    requires |q| == 3
    ensures Encode(q + rest) == EncodeQuantum(q[0], q[1], q[2]) + Encode(rest)
  {
    var d := q + rest;
    assert d[0] == q[0] && d[1] == q[1] && d[2] == q[2];
    assert d[3..] == rest;
    EncodeCons(d);
  }

  /** A quantum that decodes to q, followed by the encoding of rest, is the encoding of q + rest. */
  lemma EncodeDecodeStep(s: string, q: seq<byte>, rest: seq<byte>)
    requires |s| > 4
    requires DecodeQuantum(s[0], s[1], s[2], s[3]) == Some(q)
    requires Encode(rest) == s[4..]
    ensures Encode(q + rest) == s
  {
    EncodeDecodeQuantum(s[0], s[1], s[2], s[3]);
    EncodePrefixQuantum(q, rest);
    assert s == [s[0], s[1], s[2], s[3]] + s[4..];
  }

  /** A single accepted quantum is the encoding of what it decodes to. */
  lemma EncodeDecodeLast(s: string)
    requires |s| == 4 && Decode(s).Some?
    ensures Encode(Decode(s).value) == s
  {
    EncodeDecodeFinal(s[0], s[1], s[2], s[3]);
    assert s == [s[0], s[1], s[2], s[3]];
  }

  /** Whatever the decoder accepts is the encoding of what it returns. */
  lemma {:induction false} EncodeDecode(s: string)
    requires Decode(s).Some?
    ensures Encode(Decode(s).value) == s
    decreases |s|
  {
    if |s| == 4 {
      EncodeDecodeLast(s);
    } else if |s| > 4 {
      DecodeCons(s);
      var q, rest := DecodeQuantum(s[0], s[1], s[2], s[3]).value, Decode(s[4..]).value;
      assert Decode(s) == Some(q + rest);
      EncodeDecode(s[4..]);
      EncodeDecodeStep(s, q, rest);
    }
  }

  // Test vectors of section 10 of RFC 4648, for "f", "fo", "foo" and "foobar".

  lemma EncodeVectorF()
    ensures Encode([102]) == "Zg=="
  {
    assert S0(102) == 25 && S1(102, 0) == 32;
    assert CharOf(25) == 'Z' && CharOf(32) == 'g';
  }

  lemma EncodeVectorFo()
    ensures Encode([102, 111]) == "Zm8="
  {
    assert S0(102) == 25 && S1(102, 111) == 38 && S2(111, 0) == 60;
    assert CharOf(25) == 'Z' && CharOf(38) == 'm' && CharOf(60) == '8';
  }

  lemma QuantumFoo()
    ensures EncodeQuantum(102, 111, 111) == "Zm9v"
  {
    assert S0(102) == 25 && S1(102, 111) == 38 && S2(111, 111) == 61 && S3(111) == 47;
    assert CharOf(25) == 'Z' && CharOf(38) == 'm' && CharOf(61) == '9' && CharOf(47) == 'v';
  }

  lemma QuantumBar()
    ensures EncodeQuantum(98, 97, 114) == "YmFy"
  {
    assert S0(98) == 24 && S1(98, 97) == 38 && S2(97, 114) == 5 && S3(114) == 50;
    assert CharOf(24) == 'Y' && CharOf(38) == 'm' && CharOf(5) == 'F' && CharOf(50) == 'y';
  }

  lemma EncodeVectorFoo()
    ensures Encode([102, 111, 111]) == "Zm9v"
  {
    var foo: seq<byte> := [102, 111, 111];
    EncodePrefixQuantum(foo, []);
    assert foo + [] == foo;
    QuantumFoo();
  }

  lemma EncodeVectorFoobar()
    ensures Encode([102, 111, 111, 98, 97, 114]) == "Zm9vYmFy"
  {
    var foo: seq<byte>, bar: seq<byte> := [102, 111, 111], [98, 97, 114];
    assert foo + bar == [102, 111, 111, 98, 97, 114];
    EncodePrefixQuantum(foo, bar);
    EncodePrefixQuantum(bar, []);
    assert bar + [] == bar;
    QuantumFoo();
    QuantumBar();
  }

  /** The decoder and the encoder are inverse: a string decodes to `data` exactly when it is the encoding of `data`. */
  lemma DecodeIffEncode(s: string, data: seq<byte>)
    ensures Decode(s) == Some(data) <==> s == Encode(data)
  {
    if Decode(s) == Some(data) {
      EncodeDecode(s);
    }
    if s == Encode(data) {
      DecodeEncode(data);
    }
  }
}
