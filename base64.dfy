/**
 * Base64 as `window.btoa` produces it: the encoding of section 4 of RFC 4648
 * (alphabet of Table 1, `=` padding), applied to the Latin-1 code units of a
 * string. A decoder is given only as the reference that the encoding loses
 * nothing; the console itself never decodes.
 */
module Base64 {
  import opened Wrappers

  type Byte = b: int | 0 <= b < 256
  type Sextet = s: int | 0 <= s < 64

  /** Characters of the base64 alphabet. */
  predicate IsAlphabet(c: char) {
    ('A' <= c <= 'Z') || ('a' <= c <= 'z') || ('0' <= c <= '9') || c == '+' || c == '/'
  }

  /** The value an alphabet character stands for. */
  function Value(c: char): Sextet
    requires IsAlphabet(c)
  {
    if 'A' <= c <= 'Z' then c as int - 'A' as int
    else if 'a' <= c <= 'z' then c as int - 'a' as int + 26
    else if '0' <= c <= '9' then c as int - '0' as int + 52
    else if c == '+' then 62
    else 63
  }

  /** The alphabet character for a 6-bit group; `Value` is its inverse. */
  function Digit(s: Sextet): (c: char)
    ensures IsAlphabet(c) && Value(c) == s
  {
    if s < 26 then ('A' as int + s) as char
    else if s < 52 then ('a' as int + (s - 26)) as char
    else if s < 62 then ('0' as int + (s - 52)) as char
    else if s == 62 then '+'
    else '/'
  }

  /** Three bytes become four characters. */
  function EncodeBlock(a: Byte, b: Byte, c: Byte): string {
    [Digit(a / 4), Digit((a % 4) * 16 + b / 16), Digit((b % 16) * 4 + c / 64), Digit(c % 64)]
  }

  /** A final group of two bytes: three characters and one `=`. */
  function EncodeTwo(a: Byte, b: Byte): string {
    [Digit(a / 4), Digit((a % 4) * 16 + b / 16), Digit((b % 16) * 4), '=']
  }

  /** A final group of one byte: two characters and `==`. */
  function EncodeOne(a: Byte): string {
    [Digit(a / 4), Digit((a % 4) * 16), '=', '=']
  }

  /** The base64 encoding of a byte string. */
  function Encode(bs: seq<Byte>): (r: string)
    ensures |r| == 4 * ((|bs| + 2) / 3)
    ensures forall i :: 0 <= i < |r| ==> IsAlphabet(r[i]) || r[i] == '='
    decreases |bs|
  {
    if |bs| == 0 then ""
    else if |bs| == 1 then EncodeOne(bs[0])
    else if |bs| == 2 then EncodeTwo(bs[0], bs[1])
    else EncodeBlock(bs[0], bs[1], bs[2]) + Encode(bs[3..])
  }

  predicate IsFullQuad(q: string)
    requires |q| == 4
  {
    IsAlphabet(q[0]) && IsAlphabet(q[1]) && IsAlphabet(q[2]) && IsAlphabet(q[3])
  }

  function DecodeFull(q: string): seq<Byte>
    requires |q| == 4 && IsFullQuad(q)
  {
    var a, b, c, d := Value(q[0]), Value(q[1]), Value(q[2]), Value(q[3]);
    [a * 4 + b / 16, (b % 16) * 16 + c / 4, (c % 4) * 64 + d]
  }

  /** The last group of four characters, which may carry padding. */
  function DecodeLast(q: string): Option<seq<Byte>>
    requires |q| == 4
  {
    if IsFullQuad(q) then Some(DecodeFull(q))
    else if IsAlphabet(q[0]) && IsAlphabet(q[1]) && IsAlphabet(q[2]) && q[3] == '=' then
      var a, b, c := Value(q[0]), Value(q[1]), Value(q[2]);
      Some([a * 4 + b / 16, (b % 16) * 16 + c / 4])
    else if IsAlphabet(q[0]) && IsAlphabet(q[1]) && q[2] == '=' && q[3] == '=' then
      var a, b := Value(q[0]), Value(q[1]);
      Some([a * 4 + b / 16])
    else None
  }

  /** Decoding: groups of four characters, padding only in the last one. */
  function Decode(s: string): Option<seq<Byte>>
    decreases |s|
  {
    if s == [] then Some([])
    else if |s| < 4 then None
    else if |s| == 4 then DecodeLast(s)
    else if !IsFullQuad(s[..4]) then None
    else match Decode(s[4..])
      case None => None
      case Some(rest) => Some(DecodeFull(s[..4]) + rest)
  }

  lemma BlockRoundTrip(a: Byte, b: Byte, c: Byte)
    ensures IsFullQuad(EncodeBlock(a, b, c)) && DecodeFull(EncodeBlock(a, b, c)) == [a, b, c]
  {
    var q := EncodeBlock(a, b, c);
    assert Value(q[1]) / 16 == a % 4 && Value(q[1]) % 16 == b / 16;
    assert Value(q[2]) / 4 == b % 16 && Value(q[2]) % 4 == c / 64;
  }

  lemma OneRoundTrip(a: Byte)
    ensures Decode(EncodeOne(a)) == Some([a])
  {
    var q := EncodeOne(a);
    assert Value(q[1]) / 16 == a % 4;
    assert DecodeLast(q) == Some([a]);
  }

  lemma TwoRoundTrip(a: Byte, b: Byte)
    ensures Decode(EncodeTwo(a, b)) == Some([a, b])
  {
    var q := EncodeTwo(a, b);
    assert Value(q[1]) / 16 == a % 4 && Value(q[1]) % 16 == b / 16;
    assert Value(q[2]) / 4 == b % 16;
    assert DecodeLast(q) == Some([a, b]);
  }

  /** A full group in front of a decodable text decodes to its three bytes in front. */
  lemma DecodeFullPrefix(q: string, t: string)
    requires |q| == 4 && IsFullQuad(q) && Decode(t).Some?
    ensures Decode(q + t) == Some(DecodeFull(q) + Decode(t).value)
  {
    var s := q + t;
    assert s[..4] == q && s[4..] == t;
    if t == [] {
      assert s == q;
      assert Decode(s) == DecodeLast(q) == Some(DecodeFull(q));
      assert DecodeFull(q) + [] == DecodeFull(q);
    }
  }

  /** Input of three bytes or more: the first group's four characters, then the rest. */
  lemma EncodeFront(bs: seq<Byte>)
    requires |bs| >= 3
    ensures Encode(bs) == EncodeBlock(bs[0], bs[1], bs[2]) + Encode(bs[3..])
  {
  }

  lemma SplitFront(bs: seq<Byte>)
    requires |bs| >= 3
    ensures [bs[0], bs[1], bs[2]] + bs[3..] == bs
  {
    assert bs[..3] == [bs[0], bs[1], bs[2]];
    assert bs == bs[..3] + bs[3..];
  }

  /** Decoding an encoding gives back the bytes: base64 loses nothing. */
  lemma {:induction false} DecodeEncode(bs: seq<Byte>)
    ensures Decode(Encode(bs)) == Some(bs)
    decreases |bs|
  {
    if |bs| == 1 {
      OneRoundTrip(bs[0]);
      assert bs == [bs[0]];
    } else if |bs| == 2 {
      TwoRoundTrip(bs[0], bs[1]);
      assert bs == [bs[0], bs[1]];
    } else if |bs| >= 3 {
      var q := EncodeBlock(bs[0], bs[1], bs[2]);
      EncodeFront(bs);
      BlockRoundTrip(bs[0], bs[1], bs[2]);
      DecodeEncode(bs[3..]);
      DecodeFullPrefix(q, Encode(bs[3..]));
      SplitFront(bs);
    }
  }

  /** Two byte strings with the same encoding are equal. */
  lemma EncodeInjective(xs: seq<Byte>, ys: seq<Byte>)
    requires Encode(xs) == Encode(ys)
    ensures xs == ys
  {
    DecodeEncode(xs);
    DecodeEncode(ys);
  }

  /** Every code unit is at most U+00FF, the only input `btoa` accepts. */
  predicate IsLatin1(s: string) {
    forall i :: 0 <= i < |s| ==> s[i] as int < 256
  }

  function Latin1Bytes(s: string): (bs: seq<Byte>)
    requires IsLatin1(s)
    ensures |bs| == |s| && forall i :: 0 <= i < |s| ==> bs[i] == s[i] as int
  {
    seq(|s|, i requires 0 <= i < |s| => s[i] as int)
  }

  /**
   * `window.btoa(s)`: `None` stands for the InvalidCharacterError thrown on a
   * character above U+00FF; otherwise the base64 text, which decodes back to
   * the string's code units.
   */
  function Btoa(s: string): (r: Option<string>)
    ensures r.Some? <==> IsLatin1(s)
    ensures r.Some? ==> |r.value| == 4 * ((|s| + 2) / 3)
    ensures r.Some? ==> Decode(r.value) == Some(Latin1Bytes(s))
  {
    if IsLatin1(s) then
      DecodeEncode(Latin1Bytes(s));
      Some(Encode(Latin1Bytes(s)))
    else None
  }

  /** On Latin-1 text, `btoa` is the encoding of its code units. */
  lemma BtoaIsEncode(s: string)
    requires IsLatin1(s)
    ensures Btoa(s) == Some(Encode(Latin1Bytes(s)))
  {
  }

  /** The bytes of "secret". */
  lemma SecretBytes()
    ensures IsLatin1("secret") && Latin1Bytes("secret") == [115, 101, 99, 114, 101, 116]
  {
    assert IsLatin1("secret");
  }

  lemma SecretBlocks()
    ensures EncodeBlock(115, 101, 99) == "c2Vj" && EncodeBlock(114, 101, 116) == "cmV0"
  {
    assert Digit(28) == 'c' && Digit(54) == '2' && Digit(21) == 'V' && Digit(35) == 'j';
    assert Digit(28) == 'c' && Digit(38) == 'm' && Digit(21) == 'V' && Digit(52) == '0';
  }

  /** Six bytes encode as two full groups. */
  lemma EncodeSix(bs: seq<Byte>)
    requires |bs| == 6
    ensures Encode(bs) == EncodeBlock(bs[0], bs[1], bs[2]) + EncodeBlock(bs[3], bs[4], bs[5])
  {
    var t := bs[3..];
    assert t[0] == bs[3] && t[1] == bs[4] && t[2] == bs[5] && t[3..] == [];
    assert Encode(t) == EncodeBlock(bs[3], bs[4], bs[5]) + Encode([]);
  }

  /** `btoa("secret")` is "c2VjcmV0": the masked value of a typical credential field, group by group. */
  lemma BtoaSecret()
    ensures Btoa("secret") == Some("c2Vj" + "cmV0")
  {
    SecretBytes();
    EncodeSix([115, 101, 99, 114, 101, 116]);
    SecretBlocks();
    BtoaIsEncode("secret");
  }

  /** Nine bytes encode as three full groups. */
  lemma EncodeNine(bs: seq<Byte>)
    requires |bs| == 9
    ensures Encode(bs) == EncodeBlock(bs[0], bs[1], bs[2]) + EncodeBlock(bs[3], bs[4], bs[5]) + EncodeBlock(bs[6], bs[7], bs[8])
  {
    EncodeSix(bs[3..]);
    assert bs[3..][0] == bs[3] && bs[3..][3] == bs[6];
  }

  /** The bytes of "undefined". */
  lemma UndefinedBytes()
    ensures IsLatin1("undefined") && Latin1Bytes("undefined") == [117, 110, 100, 101, 102, 105, 110, 101, 100]
  {
    assert IsLatin1("undefined");
  }

  lemma UndefinedBlocks()
    ensures EncodeBlock(117, 110, 100) == "dW5k" && EncodeBlock(101, 102, 105) == "ZWZp" && EncodeBlock(110, 101, 100) == "bmVk"
  {
    assert Digit(29) == 'd' && Digit(22) == 'W' && Digit(57) == '5' && Digit(36) == 'k';
    assert Digit(25) == 'Z' && Digit(22) == 'W' && Digit(25) == 'Z' && Digit(41) == 'p';
    assert Digit(27) == 'b' && Digit(38) == 'm' && Digit(21) == 'V' && Digit(36) == 'k';
  }

  /** `btoa(undefined)` is "dW5kZWZpbmVk": a masked property that has no value is sent as the encoding of "undefined". */
  lemma BtoaUndefined()
    ensures Btoa("undefined") == Some("dW5k" + "ZWZp" + "bmVk")
  {
    UndefinedBytes();
    EncodeNine([117, 110, 100, 101, 102, 105, 110, 101, 100]);
    UndefinedBlocks();
    BtoaIsEncode("undefined");
  }

  /** Four bytes: one full group, then one byte padded with `==`. */
  lemma EncodeFour(bs: seq<Byte>)
    requires |bs| == 4
    ensures Encode(bs) == EncodeBlock(bs[0], bs[1], bs[2]) + EncodeOne(bs[3])
  {
    var t := bs[3..];
    assert t[0] == bs[3] && |t| == 1;
  }

  /** Five bytes: one full group, then two bytes padded with `=`. */
  lemma EncodeFive(bs: seq<Byte>)
    requires |bs| == 5
    ensures Encode(bs) == EncodeBlock(bs[0], bs[1], bs[2]) + EncodeTwo(bs[3], bs[4])
  {
    var t := bs[3..];
    assert t[0] == bs[3] && t[1] == bs[4] && |t| == 2;
  }

  /** The bytes of "null". */
  lemma NullBytes()
    ensures IsLatin1("null") && Latin1Bytes("null") == [110, 117, 108, 108]
  {
    assert IsLatin1("null");
  }

  lemma NullBlocks()
    ensures EncodeBlock(110, 117, 108) == "bnVs"
  {
    assert 110 / 4 == 27 && (110 % 4) * 16 + 117 / 16 == 39 && (117 % 16) * 4 + 108 / 64 == 21 && 108 % 64 == 44;
    assert Digit(27) == 'b' && Digit(39) == 'n' && Digit(21) == 'V' && Digit(44) == 's';
  }

  lemma NullTail()
    ensures EncodeOne(108) == "bA=="
  {
    assert Digit(27) == 'b' && Digit(0) == 'A';
  }

  /** `btoa(null)` is "bnVsbA==": a masked property holding `null` is sent as the encoding of "null". */
  lemma BtoaNull()
    ensures Btoa("null") == Some("bnVs" + "bA==")
  {
    NullBytes();
    EncodeFour([110, 117, 108, 108]);
    NullBlocks();
    NullTail();
    BtoaIsEncode("null");
  }

  /** The bytes of "false". */
  lemma FalseBytes()
    ensures IsLatin1("false") && Latin1Bytes("false") == [102, 97, 108, 115, 101]
  {
    assert IsLatin1("false");
  }

  lemma FalseBlocks()
    ensures EncodeBlock(102, 97, 108) == "ZmFs" && EncodeTwo(115, 101) == "c2U="
  {
    assert 102 / 4 == 25 && (102 % 4) * 16 + 97 / 16 == 38 && (97 % 16) * 4 + 108 / 64 == 5 && 108 % 64 == 44;
    assert 115 / 4 == 28 && (115 % 4) * 16 + 101 / 16 == 54 && (101 % 16) * 4 == 20;
    assert Digit(25) == 'Z' && Digit(38) == 'm' && Digit(5) == 'F' && Digit(44) == 's';
    assert Digit(28) == 'c' && Digit(54) == '2' && Digit(20) == 'U';
  }

  /** `btoa(false)` is "ZmFsc2U=": a masked switch left off is sent as the encoding of "false". */
  lemma BtoaFalse()
    ensures Btoa("false") == Some("ZmFs" + "c2U=")
  {
    FalseBytes();
    EncodeFive([102, 97, 108, 115, 101]);
    FalseBlocks();
    BtoaIsEncode("false");
  }
}
