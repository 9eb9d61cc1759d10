/** Byte values: the elements of a `Uint8Array`, and the character codes of a JavaScript
    "binary string" (a string whose characters are all at most U+00FF). */
module Bytes {

  type byte = x: int | 0 <= x < 0x100

  predicate IsBinaryString(s: string)
  {
    forall i | 0 <= i < |s| :: s[i] as int < 0x100
  }

  /** `String.fromCharCode(...bytes)`. */
  function FromCharCodes(bytes: seq<byte>): (s: string)
    ensures |s| == |bytes| && IsBinaryString(s)
  {
    seq(|bytes|, i requires 0 <= i < |bytes| => bytes[i] as char)
  }

  /** The character codes of a binary string: `s.charCodeAt(i)` for every `i`. */
  function CharCodes(s: string): (bytes: seq<byte>)
    requires IsBinaryString(s)
    ensures |bytes| == |s|
  {
    seq(|s|, i requires 0 <= i < |s| => s[i] as int)
  }

  lemma CharCodesRoundTrip(bytes: seq<byte>)
    ensures CharCodes(FromCharCodes(bytes)) == bytes
  {
  }
}

/** `btoa` and `atob`: the base64 encoding of section 4 of RFC 4648 (alphabet A-Z a-z 0-9 + /,
    '=' padding) applied to binary strings. Decoding is the WHATWG "forgiving-base64 decode"
    that `atob` uses: ASCII whitespace is ignored, trailing padding is optional, and any
    other character outside the alphabet is an error. */
module Base64 {
  import opened Wrappers
  import opened Bytes

  type sextet = x: int | 0 <= x < 64

  /** The character of the base64 alphabet for a 6-bit value. */
  function SextetChar(v: sextet): char
  {
    if v < 26 then ('A' as int + v) as char
    else if v < 52 then ('a' as int + (v - 26)) as char
    else if v < 62 then ('0' as int + (v - 52)) as char
    else if v == 62 then '+'
    else '/'
  }

  /** The 6-bit value of an alphabet character; None for any other character. */
  function CharSextet(c: char): (r: Option<sextet>)
    ensures r.Some? ==> SextetChar(r.value) == c
  {
    if 'A' <= c <= 'Z' then Some(c as int - 'A' as int)
    else if 'a' <= c <= 'z' then Some(c as int - 'a' as int + 26)
    else if '0' <= c <= '9' then Some(c as int - '0' as int + 52)
    else if c == '+' then Some(62)
    else if c == '/' then Some(63)
    else None
  }

  lemma SextetCharRoundTrip(v: sextet)
    ensures CharSextet(SextetChar(v)) == Some(v)
  {
  }

  // The four 6-bit values of a group of three bytes b0 b1 b2, most significant bits first.
  function FirstSextet(b0: byte): sextet { b0 / 4 }
  function SecondSextet(b0: byte, b1: byte): sextet { (b0 % 4) * 16 + b1 / 16 }
  function ThirdSextet(b1: byte, b2: byte): sextet { (b1 % 16) * 4 + b2 / 64 }
  function FourthSextet(b2: byte): sextet { b2 % 64 }

  // The three bytes of a group of four 6-bit values c0 c1 c2 c3.
  function FirstByte(c0: sextet, c1: sextet): byte { c0 * 4 + c1 / 16 }
  function SecondByte(c1: sextet, c2: sextet): byte { (c1 % 16) * 16 + c2 / 4 }
  function ThirdByte(c2: sextet, c3: sextet): byte { (c2 % 4) * 64 + c3 }

  lemma FirstByteOfGroup(b0: byte, b1: byte)
    ensures FirstByte(FirstSextet(b0), SecondSextet(b0, b1)) == b0
  {
    assert SecondSextet(b0, b1) / 16 == b0 % 4;
  }

  lemma SecondByteOfGroup(b0: byte, b1: byte, b2: byte)
    ensures SecondByte(SecondSextet(b0, b1), ThirdSextet(b1, b2)) == b1
  {
    assert SecondSextet(b0, b1) % 16 == b1 / 16;
    assert ThirdSextet(b1, b2) / 4 == b1 % 16;
  }

  lemma ThirdByteOfGroup(b1: byte, b2: byte)
    ensures ThirdByte(ThirdSextet(b1, b2), FourthSextet(b2)) == b2
  {
    assert ThirdSextet(b1, b2) % 4 == b2 / 64;
  }

  /** Base64 without padding, as 6-bit values: four for every three bytes, then two for a
      final single byte or three for a final pair (the unused low bits are zero). */
  function EncodeSextets(b: seq<byte>): (r: seq<sextet>)
    ensures |r| == 4 * (|b| / 3) + (if |b| % 3 == 0 then 0 else |b| % 3 + 1)
    decreases |b|
  {
    if |b| >= 3 then
      [FirstSextet(b[0]), SecondSextet(b[0], b[1]), ThirdSextet(b[1], b[2]), FourthSextet(b[2])]
      + EncodeSextets(b[3..])
    else if |b| == 2 then
      [FirstSextet(b[0]), SecondSextet(b[0], b[1]), ThirdSextet(b[1], 0)]
    else if |b| == 1 then
      [FirstSextet(b[0]), SecondSextet(b[0], 0)]
    else []
  }

  /** The bytes the 6-bit values carry, 24 bits at a time; a final group of two or three
      values yields one or two bytes and its leftover bits are discarded. */
  function DecodeSextets(v: seq<sextet>): seq<byte>
    decreases |v|
  {
    if |v| >= 4 then
      [FirstByte(v[0], v[1]), SecondByte(v[1], v[2]), ThirdByte(v[2], v[3])] + DecodeSextets(v[4..])
    else if |v| == 3 then
      [FirstByte(v[0], v[1]), SecondByte(v[1], v[2])]
    else if |v| == 2 then
      [FirstByte(v[0], v[1])]
    else []
  }

  /** Decoding the 6-bit values recovers the bytes they were made from. */
  lemma {:induction false} DecodeEncodeSextets(b: seq<byte>)
    ensures DecodeSextets(EncodeSextets(b)) == b
    decreases |b|
  {
    var v := EncodeSextets(b);
    if |b| >= 3 {
      DecodeEncodeSextets(b[3..]);
      assert v[4..] == EncodeSextets(b[3..]);
      FirstByteOfGroup(b[0], b[1]);
      SecondByteOfGroup(b[0], b[1], b[2]);
      ThirdByteOfGroup(b[1], b[2]);
      assert b == [b[0], b[1], b[2]] + b[3..];
    } else if |b| == 2 {
      FirstByteOfGroup(b[0], b[1]);
      SecondByteOfGroup(b[0], b[1], 0);
    } else if |b| == 1 {
      FirstByteOfGroup(b[0], 0);
    }
  }

  function Chars(v: seq<sextet>): (s: string)
    ensures |s| == |v|
  {
    seq(|v|, i requires 0 <= i < |v| => SextetChar(v[i]))
  }

  predicate AllAlphabet(s: string)
  {
    forall i | 0 <= i < |s| :: CharSextet(s[i]).Some?
  }

  function Sextets(s: string): (v: seq<sextet>)
    requires AllAlphabet(s)
    ensures |v| == |s|
  {
    seq(|s|, i requires 0 <= i < |s| => CharSextet(s[i]).value)
  }

  lemma SextetsOfChars(v: seq<sextet>)
    ensures AllAlphabet(Chars(v)) && Sextets(Chars(v)) == v
  {
    forall i | 0 <= i < |v| ensures CharSextet(Chars(v)[i]) == Some(v[i]) {
      SextetCharRoundTrip(v[i]);
    }
  }

  /** The '=' characters that complete the last group of four. */
  function Padding(n: nat): string
  {
    if n % 3 == 1 then "==" else if n % 3 == 2 then "=" else ""
  }

  /** `btoa(s)`: None stands for the InvalidCharacterError thrown when `s` has a character
      above U+00FF. */
  function Btoa(s: string): (r: Option<string>)
    ensures r.Some? <==> IsBinaryString(s)
    ensures r.Some? ==> |r.value| == 4 * ((|s| + 2) / 3)
  {
    if !IsBinaryString(s) then None
    else Some(Chars(EncodeSextets(CharCodes(s))) + Padding(|s|))
  }

  /** Text made of alphabet characters and '=' only, as `btoa` writes it. */
  predicate IsBase64Text(s: string)
  {
    forall i | 0 <= i < |s| :: CharSextet(s[i]).Some? || s[i] == '='
  }

  /** `btoa` writes nothing but alphabet characters and padding. */
  lemma BtoaIsBase64Text(s: string)
    requires IsBinaryString(s)
    ensures IsBase64Text(Btoa(s).value)
  {
    var v := EncodeSextets(CharCodes(s));
    SextetsOfChars(v);
    var r := Btoa(s).value;
    assert r == Chars(v) + Padding(|s|);
    forall i | 0 <= i < |r| ensures CharSextet(r[i]).Some? || r[i] == '=' {
      if i < |v| {
        assert r[i] == Chars(v)[i];
      }
    }
  }

  /** ASCII whitespace as the forgiving decoder skips it: TAB, LF, FF, CR and SPACE. */
  predicate IsAsciiWhitespace(c: char)
  {
    c == '\t' || c == '\n' || c as int == 0x0C || c == '\r' || c == ' '
  }

  function RemoveWhitespace(s: string): string
    decreases |s|
  {
    if |s| == 0 then ""
    else (if IsAsciiWhitespace(s[0]) then "" else [s[0]]) + RemoveWhitespace(s[1..])
  }

  /** Drops one or two trailing '='. */
  function StripPadding(s: string): string
  {
    if |s| >= 2 && s[|s| - 2..] == "==" then s[..|s| - 2]
    else if |s| >= 1 && s[|s| - 1] == '=' then s[..|s| - 1]
    else s
  }

  /** `atob(s)`: the binary string whose character codes are the decoded bytes; None stands
      for the InvalidCharacterError thrown on malformed input. */
  function Atob(s: string): (r: Option<string>)
    ensures r.Some? ==> IsBinaryString(r.value)
  {
    var data := RemoveWhitespace(s);
    var data := if |data| % 4 == 0 then StripPadding(data) else data;
    if |data| % 4 == 1 then None
    else if !AllAlphabet(data) then None
    else Some(FromCharCodes(DecodeSextets(Sextets(data))))
  }

  lemma {:induction false} RemoveWhitespaceNoop(s: string)
    requires forall i | 0 <= i < |s| :: !IsAsciiWhitespace(s[i])
    ensures RemoveWhitespace(s) == s
    decreases |s|
  {
    if |s| > 0 {
      RemoveWhitespaceNoop(s[1..]);
      assert [s[0]] + s[1..] == s;
    }
  }

  /** Unpadded base64 (what remains once the padding is stripped) decodes to its bytes. */
  lemma DecodeUnpadded(b: seq<byte>)
    ensures var data := Chars(EncodeSextets(b));
      |data| % 4 != 1 && AllAlphabet(data) && DecodeSextets(Sextets(data)) == b
  {
    var v := EncodeSextets(b);
    var extra := if |b| % 3 == 0 then 0 else |b| % 3 + 1;
    GroupRemainder(|b| / 3, extra);
    SextetsOfChars(v);
    DecodeEncodeSextets(b);
  }

  lemma GroupRemainder(k: nat, extra: nat)
    requires extra < 4
    ensures (4 * k + extra) % 4 == extra
  {
  }

  lemma StripTwo(body: string)
    ensures StripPadding(body + "==") == body
  {
    var enc := body + "==";
    assert enc[|enc| - 2..] == "==";
    assert enc[..|enc| - 2] == body;
  }

  lemma StripOne(body: string)
    requires |body| >= 1 && AllAlphabet(body)
    ensures StripPadding(body + "=") == body
  {
    var enc := body + "=";
    assert CharSextet(body[|body| - 1]).Some?;
    assert enc[|enc| - 2] == body[|body| - 1];
    assert enc[..|enc| - 1] == body;
  }

  lemma StripNone(body: string)
    requires AllAlphabet(body)
    ensures StripPadding(body) == body
  {
    if |body| >= 1 {
      assert CharSextet(body[|body| - 1]).Some?;
    }
  }

  /** Stripping the padding `btoa` adds for `n` input bytes leaves the body. */
  lemma StripPaddingOf(body: string, n: nat)
    requires AllAlphabet(body)
    requires n % 3 == 2 ==> |body| >= 1
    ensures StripPadding(body + Padding(n)) == body
  {
    if n % 3 == 1 {
      StripTwo(body);
    } else if n % 3 == 2 {
      StripOne(body);
    } else {
      assert body + Padding(n) == body;
      StripNone(body);
    }
  }

  /** Stripping the padding of an encoding leaves its unpadded body. */
  lemma StripPaddingOfEncoding(b: seq<byte>)
    ensures StripPadding(Chars(EncodeSextets(b)) + Padding(|b|)) == Chars(EncodeSextets(b))
  {
    var v := EncodeSextets(b);
    SextetsOfChars(v);
    assert |b| % 3 == 2 ==> |v| >= 1;
    StripPaddingOf(Chars(v), |b|);
  }

  lemma EncodingHasNoWhitespace(b: seq<byte>)
    ensures var enc := Chars(EncodeSextets(b)) + Padding(|b|);
      forall i | 0 <= i < |enc| :: !IsAsciiWhitespace(enc[i])
  {
    var body := Chars(EncodeSextets(b));
    var enc := body + Padding(|b|);
    SextetsOfChars(EncodeSextets(b));
    forall i | 0 <= i < |enc| ensures !IsAsciiWhitespace(enc[i]) {
      if i < |body| {
        assert CharSextet(body[i]).Some?;
      } else {
        assert enc[i] == Padding(|b|)[i - |body|];
      }
    }
  }

  /** `atob` undoes `btoa`: decoding the encoding of a binary string gives the string back. */
  lemma AtobBtoa(s: string)
    requires IsBinaryString(s)
    ensures Btoa(s).Some? && Atob(Btoa(s).value) == Some(s)
  {
    var b := CharCodes(s);
    var body := Chars(EncodeSextets(b));
    var enc := body + Padding(|s|);
    assert Btoa(s).value == enc;
    var n := (|s| + 2) / 3;
    assert |enc| == 4 * n;
    assert |enc| % 4 == 0;
    EncodingHasNoWhitespace(b);
    RemoveWhitespaceNoop(enc);
    StripPaddingOfEncoding(b);
    DecodeUnpadded(b);
    assert FromCharCodes(b) == s;
  }

  /** `base64ToUint8Array`: `atob`, then one byte per character holding its character code.
      None stands for the error `atob` throws. */
  method Base64ToUint8Array(base64: string) returns (r: Option<seq<byte>>)
    ensures r.Some? <==> Atob(base64).Some?
    ensures r.Some? ==> |r.value| == |Atob(base64).value|
    ensures r.Some? ==> forall i | 0 <= i < |r.value| :: r.value[i] == Atob(base64).value[i] as int
  {
    var decoded := Atob(base64);
    if decoded.None? {
      return None;
    }
    var binaryString := decoded.value;
    var bytes: seq<byte> := seq(|binaryString|, _ => 0);
    var i := 0;
    while i < |binaryString|
      invariant 0 <= i <= |binaryString| && |bytes| == |binaryString|
      invariant forall k | 0 <= k < i :: bytes[k] == binaryString[k] as int
    {
      bytes := bytes[i := binaryString[i] as int];
      i := i + 1;
    }
    return Some(bytes);
  }

  /** What the receiving side gets from a chunk the sending side encoded: the same bytes. */
  lemma BytesSurviveTransport(bytes: seq<byte>)
    ensures Btoa(FromCharCodes(bytes)).Some?
    ensures Atob(Btoa(FromCharCodes(bytes)).value) == Some(FromCharCodes(bytes))
    ensures CharCodes(FromCharCodes(bytes)) == bytes
  {
    AtobBtoa(FromCharCodes(bytes));
    CharCodesRoundTrip(bytes);
  }
}
