/** `encodeURIComponent`: each character outside the unreserved set (ASCII letters, digits
    and - _ . ! ~ * ' ( )) is replaced by the percent-escaped bytes of its UTF-8 encoding,
    with upper-case hexadecimal digits. Dafny characters are Unicode scalar values, so the
    lone-surrogate error of the JavaScript function cannot arise. A reference decoder
    (percent-decoding, then UTF-8 decoding) is defined alongside to state that the encoding
    loses nothing. */
module UriComponent {
  import opened Wrappers
  import opened Bytes

  predicate IsUnreserved(c: char)
  {
    || 'A' <= c <= 'Z' || 'a' <= c <= 'z' || '0' <= c <= '9'
    || c == '-' || c == '_' || c == '.' || c == '!' || c == '~' || c == '*' || c == '\'' || c == '(' || c == ')'
  }

  // ---------------------------------------------------------------------------
  // UTF-8
  // ---------------------------------------------------------------------------

  /** A continuation byte carrying the 6-bit value `v`. */
  function Cont(v: int): byte
    requires 0 <= v < 64
  {
    0x80 + v
  }

  /** The UTF-8 encoding of one scalar value (section 3 of RFC 3629). */
  function Utf8Char(c: char): (r: seq<byte>)
    ensures 1 <= |r| <= 4
    ensures c as int < 0x80 ==> r == [c as int]
  {
    var cp := c as int;
    if cp < 0x80 then [cp]
    else if cp < 0x800 then [0xC0 + cp / 64, Cont(cp % 64)]
    else if cp < 0x10000 then [0xE0 + cp / 4096, Cont((cp / 64) % 64), Cont(cp % 64)]
    else [0xF0 + cp / 262144, Cont((cp / 4096) % 64), Cont((cp / 64) % 64), Cont(cp % 64)]
  }

  function Utf8(s: string): seq<byte>
  {
    if |s| == 0 then [] else Utf8Char(s[0]) + Utf8(s[1..])
  }

  /** How many bytes a sequence starting with the lead byte `b` has; 0 for a byte that
      cannot lead one. */
  function SequenceLength(b: byte): nat
  {
    if b < 0x80 then 1
    else if 0xC0 <= b < 0xE0 then 2
    else if 0xE0 <= b < 0xF0 then 3
    else if 0xF0 <= b < 0xF8 then 4
    else 0
  }

  predicate IsCont(b: byte)
  {
    0x80 <= b < 0xC0
  }

  /** The scalar value a lead byte and its continuation bytes carry, when it is one. */
  function DecodeScalar(bs: seq<byte>): Option<char>
    requires 1 <= |bs| <= 4 && SequenceLength(bs[0]) == |bs|
  {
    if exists i | 1 <= i < |bs| :: !IsCont(bs[i]) then None
    else
      var cp :=
        if |bs| == 1 then bs[0]
        else if |bs| == 2 then (bs[0] as int - 0xC0) * 64 + (bs[1] as int - 0x80)
        else if |bs| == 3 then (bs[0] as int - 0xE0) * 4096 + (bs[1] as int - 0x80) * 64 + (bs[2] as int - 0x80)
        else (bs[0] as int - 0xF0) * 262144 + (bs[1] as int - 0x80) * 4096 + (bs[2] as int - 0x80) * 64 + (bs[3] as int - 0x80);
      if 0 <= cp < 0xD800 || 0xE000 <= cp < 0x110000 then Some(cp as char) else None
  }

  function Utf8Decode(bs: seq<byte>): Option<string>
    decreases |bs|
  {
    if |bs| == 0 then Some("")
    else
      var n := SequenceLength(bs[0]);
      if n == 0 || |bs| < n then None
      else match DecodeScalar(bs[..n])
        case None => None
        case Some(c) => match Utf8Decode(bs[n..])
          case None => None
          case Some(rest) => Some([c] + rest)
  }

  lemma Base64Digits(cp: int)
    requires 0 <= cp
    ensures cp == (cp / 64) * 64 + cp % 64
    ensures cp / 64 == (cp / 4096) * 64 + (cp / 64) % 64
    ensures cp / 4096 == (cp / 262144) * 64 + (cp / 4096) % 64
  {
  }

  /** The bytes of one character decode to that character. */
  lemma DecodeScalarOfUtf8Char(c: char)
    ensures var bs := Utf8Char(c);
      SequenceLength(bs[0]) == |bs| && DecodeScalar(bs) == Some(c)
  {
    var cp := c as int;
    var bs := Utf8Char(c);
    Base64Digits(cp);
    if cp >= 0x80 {
      assert forall i | 1 <= i < |bs| :: IsCont(bs[i]);
    }
    if cp < 0x80 {
    } else if cp < 0x800 {
      assert (bs[0] as int - 0xC0) * 64 + (bs[1] as int - 0x80) == cp;
    } else if cp < 0x10000 {
      assert (bs[0] as int - 0xE0) * 4096 + (bs[1] as int - 0x80) * 64 + (bs[2] as int - 0x80) == cp;
    } else {
      assert (bs[0] as int - 0xF0) * 262144 + (bs[1] as int - 0x80) * 4096 + (bs[2] as int - 0x80) * 64 + (bs[3] as int - 0x80) == cp;
    }
  }

  /** UTF-8 decoding undoes UTF-8 encoding. */
  lemma {:induction false} Utf8RoundTrip(s: string)
    ensures Utf8Decode(Utf8(s)) == Some(s)
  {
    if |s| > 0 {
      var head := Utf8Char(s[0]);
      var bs := Utf8(s);
      assert bs == head + Utf8(s[1..]);
      DecodeScalarOfUtf8Char(s[0]);
      assert bs[0] == head[0];
      assert bs[..|head|] == head;
      assert bs[|head|..] == Utf8(s[1..]);
      Utf8RoundTrip(s[1..]);
      assert [s[0]] + s[1..] == s;
    }
  }

  // ---------------------------------------------------------------------------
  // percent-encoding
  // ---------------------------------------------------------------------------

  function HexDigit(d: nat): (c: char)
    requires d < 16
    ensures IsUnreserved(c)
  {
    if d < 10 then ('0' as int + d) as char else ('A' as int + (d - 10)) as char
  }

  function HexValue(c: char): (r: Option<nat>)
    ensures r.Some? ==> r.value < 16
  {
    if '0' <= c <= '9' then Some(c as int - '0' as int)
    else if 'A' <= c <= 'F' then Some(c as int - 'A' as int + 10)
    else if 'a' <= c <= 'f' then Some(c as int - 'a' as int + 10)
    else None
  }

  /** `%XY` for each byte. */
  function Escape(bs: seq<byte>): (r: string)
    ensures |r| == 3 * |bs|
    ensures forall i | 0 <= i < |r| :: IsUnreserved(r[i]) || r[i] == '%'
  {
    if |bs| == 0 then "" else ['%', HexDigit(bs[0] / 16), HexDigit(bs[0] % 16)] + Escape(bs[1..])
  }

  function EncodeChar(c: char): (r: string)
    ensures forall i | 0 <= i < |r| :: IsUnreserved(r[i]) || r[i] == '%'
  {
    if IsUnreserved(c) then [c] else Escape(Utf8Char(c))
  }

  /** `encodeURIComponent(s)`. Its output consists of unreserved characters and '%' only,
      so it never contains a separator of a URL or of its query ('/', '?', '#', '&', '=').
      A string of unreserved characters is returned as it is. */
  function Encode(s: string): (r: string)
    ensures forall i | 0 <= i < |r| :: IsUnreserved(r[i]) || r[i] == '%'
    ensures (forall i | 0 <= i < |s| :: IsUnreserved(s[i])) ==> r == s
    ensures |r| >= |s|
  {
    if |s| == 0 then ""
    else
      assert IsUnreserved(s[0]) ==> EncodeChar(s[0]) == [s[0]];
      EncodeChar(s[0]) + Encode(s[1..])
  }

  function Prepend<T>(xs: seq<T>, r: Option<seq<T>>): Option<seq<T>>
  {
    match r
    case None => None
    case Some(ys) => Some(xs + ys)
  }

  /** Percent-decoding: `%XY` gives the byte XY, an ASCII character its own code; anything
      else is refused. */
  function PercentDecode(s: string): Option<seq<byte>>
    decreases |s|
  {
    if |s| == 0 then Some([])
    else if s[0] == '%' then
      if |s| < 3 then None
      else match (HexValue(s[1]), HexValue(s[2]))
        case (Some(hi), Some(lo)) => Prepend([hi * 16 + lo], PercentDecode(s[3..]))
        case _ => None
    else if s[0] as int < 0x80 then Prepend([s[0] as int], PercentDecode(s[1..]))
    else None
  }

  /** `decodeURIComponent` as far as this model needs it: percent-decode, then UTF-8. */
  function Decode(s: string): Option<string>
  {
    match PercentDecode(s)
    case None => None
    case Some(bs) => Utf8Decode(bs)
  }

  lemma {:induction false} PercentDecodeEscape(bs: seq<byte>, t: string)
    ensures PercentDecode(Escape(bs) + t) == Prepend(bs, PercentDecode(t))
  {
    if |bs| > 0 {
      var b := bs[0];
      var s := Escape(bs) + t;
      assert s == ['%', HexDigit(b / 16), HexDigit(b % 16)] + (Escape(bs[1..]) + t);
      assert s[3..] == Escape(bs[1..]) + t;
      assert HexValue(HexDigit(b / 16)) == Some(b / 16);
      assert HexValue(HexDigit(b % 16)) == Some(b % 16);
      assert (b / 16) * 16 + b % 16 == b;
      PercentDecodeEscape(bs[1..], t);
      match PercentDecode(t)
      case None =>
      case Some(ys) => assert [b] + (bs[1..] + ys) == bs + ys;
    } else {
      assert Escape(bs) + t == t;
      match PercentDecode(t)
      case None =>
      case Some(ys) => assert bs + ys == ys;
    }
  }

  lemma {:induction false} PercentDecodeEncode(s: string)
    ensures PercentDecode(Encode(s)) == Some(Utf8(s))
  {
    if |s| > 0 {
      var c := s[0];
      PercentDecodeEncode(s[1..]);
      if IsUnreserved(c) {
        var e := Encode(s);
        assert e == [c] + Encode(s[1..]);
        assert e[1..] == Encode(s[1..]);
      } else {
        PercentDecodeEscape(Utf8Char(c), Encode(s[1..]));
      }
    }
  }

  /** Decoding what `encodeURIComponent` produced gives back the original text. */
  lemma DecodeEncode(s: string)
    ensures Decode(Encode(s)) == Some(s)
  {
    PercentDecodeEncode(s);
    Utf8RoundTrip(s);
  }
}
