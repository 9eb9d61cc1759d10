/** String operations of the JavaScript runtime that the application relies on, with
    JavaScript's own conventions: `split` with a one-character separator, `join`, `trim`,
    `startsWith`, ASCII case folding as a case-insensitive regular expression applies it
    to ASCII letters, and the decimal rendering of integers used in template literals. */
module Text {
  import opened Wrappers

  // ---------------------------------------------------------------------------
  // split / join
  // ---------------------------------------------------------------------------

  /** The pieces of `s` between occurrences of `sep`, as `s.split(sep)` returns them for a
      one-character separator: there is always at least one piece, and pieces may be empty. */
  function Split(s: string, sep: char): (pieces: seq<string>)
    ensures |pieces| >= 1
    ensures forall i | 0 <= i < |pieces| :: sep !in pieces[i]
    decreases |s|
  {
    if |s| == 0 then [""]
    else
      var rest := Split(s[1..], sep);
      if s[0] == sep then [""] + rest
      else [[s[0]] + rest[0]] + rest[1..]
  }

  /** `pieces.join(sep)`: the pieces with one separator between each adjacent pair. */
  function Join(pieces: seq<string>, sep: char): string
  {
    if |pieces| == 0 then ""
    else if |pieces| == 1 then pieces[0]
    else pieces[0] + [sep] + Join(pieces[1..], sep)
  }

  /** Joining puts exactly one separator between each adjacent pair of pieces: when no
      piece holds the separator, the result holds one fewer than there are pieces. */
  lemma {:induction false} JoinCount(pieces: seq<string>, sep: char)
    requires |pieces| > 0 && FreeOf(pieces, sep)
    ensures multiset(Join(pieces, sep))[sep] == |pieces| - 1
  {
    if |pieces| > 1 {
      JoinCount(pieces[1..], sep);
      assert multiset(pieces[0])[sep] == 0;
    }
  }

  /** There is one piece more than there are separators. */
  lemma {:induction false} SplitCount(s: string, sep: char)
    ensures |Split(s, sep)| == multiset(s)[sep] + 1
    decreases |s|
  {
    if |s| > 0 {
      SplitCount(s[1..], sep);
      assert s == [s[0]] + s[1..];
      assert multiset(s) == multiset([s[0]]) + multiset(s[1..]);
    }
  }

  /** No piece carries the separator. */
  predicate FreeOf(pieces: seq<string>, sep: char)
  {
    forall i | 0 <= i < |pieces| :: sep !in pieces[i]
  }

  /** A string without the separator splits into itself alone. */
  lemma {:induction false} SplitWithoutSeparator(a: string, sep: char)
    requires sep !in a
    ensures Split(a, sep) == [a]
    decreases |a|
  {
    if |a| > 0 {
      SplitWithoutSeparator(a[1..], sep);
      assert [a[0]] + a[1..] == a;
    }
  }

  /** Splitting stops at the first separator: a separator-free prefix becomes the first piece. */
  lemma {:induction false} SplitAfterPiece(a: string, sep: char, t: string)
    requires sep !in a
    ensures Split(a + [sep] + t, sep) == [a] + Split(t, sep)
    decreases |a|
  {
    var s := a + [sep] + t;
    if |a| == 0 {
      assert s[1..] == t;
    } else {
      assert s[1..] == a[1..] + [sep] + t;
      SplitAfterPiece(a[1..], sep, t);
      assert [a[0]] + a[1..] == a;
    }
  }

  /** Splitting undoes joining, provided no piece carries the separator. */
  lemma {:induction false} SplitJoin(pieces: seq<string>, sep: char)
    requires |pieces| >= 1
    requires FreeOf(pieces, sep)
    ensures Split(Join(pieces, sep), sep) == pieces
    decreases |pieces|
  {
    if |pieces| == 1 {
      SplitWithoutSeparator(pieces[0], sep);
    } else {
      SplitJoin(pieces[1..], sep);
      SplitAfterPiece(pieces[0], sep, Join(pieces[1..], sep));
      assert [pieces[0]] + pieces[1..] == pieces;
    }
  }

  /** Joining undoes splitting, for every string. */
  lemma {:induction false} JoinSplit(s: string, sep: char)
    ensures Join(Split(s, sep), sep) == s
    decreases |s|
  {
    if |s| > 0 {
      var rest := Split(s[1..], sep);
      JoinSplit(s[1..], sep);
      if s[0] == sep {
        assert ([""] + rest)[1..] == rest;
        assert [s[0]] + s[1..] == s;
      } else {
        var pieces := [[s[0]] + rest[0]] + rest[1..];
        if |rest| == 1 {
          assert [s[0]] + s[1..] == s;
        } else {
          assert pieces[1..] == rest[1..];
          assert Join(rest, sep) == rest[0] + [sep] + Join(rest[1..], sep);
          assert [s[0]] + s[1..] == s;
        }
      }
    }
  }

  /** The index of the first occurrence of `c` in `s`, if there is one. */
  function IndexOf(s: string, c: char): (r: Option<nat>)
    ensures r.None? <==> c !in s
    ensures r.Some? ==> r.value < |s| && s[r.value] == c && c !in s[..r.value]
    decreases |s|
  {
    if |s| == 0 then None
    else if s[0] == c then Some(0)
    else match IndexOf(s[1..], c)
      case None => None
      case Some(i) =>
        assert s[..i + 1] == [s[0]] + s[1..][..i];
        Some(i + 1)
  }

  /** The text before the first `c`, or all of `s` when there is none. */
  function UpTo(s: string, c: char): string
  {
    match IndexOf(s, c)
    case None => s
    case Some(i) => s[..i]
  }

  /** The text after the first `c`, when there is one. */
  function After(s: string, c: char): Option<string>
  {
    match IndexOf(s, c)
    case None => None
    case Some(i) => Some(s[i + 1..])
  }

  /** The pieces of a split, located by position: the first piece runs up to the first
      separator, and the remaining pieces are those of the text after it. */
  lemma SplitAtFirst(s: string, c: char)
    ensures Split(s, c)[0] == UpTo(s, c)
    ensures After(s, c).None? ==> |Split(s, c)| == 1
    ensures After(s, c).Some? ==> Split(s, c)[1..] == Split(After(s, c).value, c)
  {
    match IndexOf(s, c)
    case None =>
      SplitWithoutSeparator(s, c);
    case Some(i) =>
      assert s == s[..i] + [c] + s[i + 1..];
      SplitAfterPiece(s[..i], c, s[i + 1..]);
  }

  /** A separator-free prefix ends at the first separator. */
  lemma AfterPiece(a: string, c: char, t: string)
    requires c !in a
    ensures IndexOf(a + [c] + t, c) == Some(|a|)
    ensures After(a + [c] + t, c) == Some(t) && UpTo(a + [c] + t, c) == a
  {
    var s := a + [c] + t;
    assert s[|a|] == c;
    assert s[|a| + 1..] == t;
  }

  // ---------------------------------------------------------------------------
  // prefixes and ASCII case
  // ---------------------------------------------------------------------------

  predicate StartsWith(s: string, prefix: string)
  {
    |prefix| <= |s| && s[..|prefix|] == prefix
  }

  /** The lower-case form of an ASCII letter; every other character is its own. */
  function LowerAscii(c: char): char
  {
    if 'A' <= c <= 'Z' then (c as int + 32) as char else c
  }

  function LowerAsciiString(s: string): (r: string)
    ensures |r| == |s|
    ensures forall i | 0 <= i < |s| :: r[i] == LowerAscii(s[i])
  {
    seq(|s|, i requires 0 <= i < |s| => LowerAscii(s[i]))
  }

  /** `s` begins with `prefix` (given in lower case) when ASCII letter case is ignored. */
  predicate StartsWithIgnoringCase(s: string, prefix: string)
  {
    |prefix| <= |s| && LowerAsciiString(s[..|prefix|]) == prefix
  }

  // ---------------------------------------------------------------------------
  // trim
  // ---------------------------------------------------------------------------

  /** The characters `String.prototype.trim` removes: ECMAScript WhiteSpace
      (TAB, VT, FF, SP, NBSP, ZWNBSP and the Space_Separator category) and LineTerminator
      (LF, CR, LS, PS). */
  predicate IsJsWhitespace(c: char)
  {
    var k := c as int;
    k == 0x09 || k == 0x0A || k == 0x0B || k == 0x0C || k == 0x0D || k == 0x20
    || k == 0xA0 || k == 0x1680 || (0x2000 <= k <= 0x200A) || k == 0x2028 || k == 0x2029
    || k == 0x202F || k == 0x205F || k == 0x3000 || k == 0xFEFF
  }

  /** `s` without its leading whitespace. */
  function TrimStart(s: string): (r: string)
    ensures |r| <= |s| && r == s[|s| - |r|..]
    ensures forall i | 0 <= i < |s| - |r| :: IsJsWhitespace(s[i])
    ensures |r| > 0 ==> !IsJsWhitespace(r[0])
    decreases |s|
  {
    if |s| > 0 && IsJsWhitespace(s[0]) then TrimStart(s[1..]) else s
  }

  /** `s` without its trailing whitespace. */
  function TrimEnd(s: string): (r: string)
    ensures |r| <= |s| && r == s[..|r|]
    ensures forall i | |r| <= i < |s| :: IsJsWhitespace(s[i])
    ensures |r| > 0 ==> !IsJsWhitespace(r[|r| - 1])
    decreases |s|
  {
    if |s| > 0 && IsJsWhitespace(s[|s| - 1]) then TrimEnd(s[..|s| - 1]) else s
  }

  /** `s.trim()`: no longer than `s`, with no whitespace at either end, and `s` itself
      when `s` already has none there. */
  function Trim(s: string): (r: string)
    ensures |r| <= |s|
    ensures |r| > 0 ==> !IsJsWhitespace(r[0]) && !IsJsWhitespace(r[|r| - 1])
    ensures |s| > 0 && !IsJsWhitespace(s[0]) && !IsJsWhitespace(s[|s| - 1]) ==> r == s
  {
    TrimEnd(TrimStart(s))
  }

  /** One space before or after a string does not change what `trim` keeps. */
  lemma TrimIgnoresPadding(s: string)
    ensures Trim(" " + s) == Trim(s)
    ensures Trim(s + " ") == Trim(s)
  {
    TrimIgnoresLeadingSpace(s);
    TrimIgnoresTrailingSpace(s);
  }

  lemma TrimIgnoresLeadingSpace(s: string)
    ensures Trim(" " + s) == Trim(s)
  {
    assert (" " + s)[1..] == s;
    assert TrimStart(" " + s) == TrimStart(s);
  }

  lemma TrimIgnoresTrailingSpace(s: string)
    ensures Trim(s + " ") == Trim(s)
  {
    TrimStartAppendSpace(s);
    var t := TrimStart(s);
    if t != "" {
      assert TrimStart(s + " ") == t + " ";
      assert (t + " ")[..|t|] == t;
      assert TrimEnd(t + " ") == TrimEnd(t);
    }
  }

  lemma {:induction false} TrimStartAppendSpace(s: string)
    ensures TrimStart(s + " ") == if TrimStart(s) == "" then "" else TrimStart(s) + " "
    decreases |s|
  {
    if |s| == 0 {
      assert " "[1..] == "";
    } else if IsJsWhitespace(s[0]) {
      assert (s + " ")[1..] == s[1..] + " ";
      TrimStartAppendSpace(s[1..]);
    }
  }

  /** How many leading characters `trim` drops. */
  function TrimOffset(s: string): nat
  {
    |s| - |TrimStart(s)|
  }

  /** Trimming keeps a contiguous part of the string, removes only whitespace, and leaves no
      whitespace at either end of what it keeps. */
  lemma TrimKeepsInfix(s: string)
    ensures TrimOffset(s) + |Trim(s)| <= |s|
    ensures Trim(s) == s[TrimOffset(s)..TrimOffset(s) + |Trim(s)|]
    ensures forall i | 0 <= i < TrimOffset(s) :: IsJsWhitespace(s[i])
    ensures forall i | TrimOffset(s) + |Trim(s)| <= i < |s| :: IsJsWhitespace(s[i])
    ensures |Trim(s)| > 0 ==> !IsJsWhitespace(Trim(s)[0]) && !IsJsWhitespace(Trim(s)[|Trim(s)| - 1])
  {
    var t := TrimStart(s);
    var r := TrimEnd(t);
    var lo := |s| - |t|;
    assert forall i | lo + |r| <= i < |s| :: s[i] == t[i - lo];
  }

  // ---------------------------------------------------------------------------
  // decimal rendering of integers
  // ---------------------------------------------------------------------------

  predicate IsDigit(c: char)
  {
    '0' <= c <= '9'
  }

  function DigitChar(d: nat): (c: char)
    requires d < 10
    ensures IsDigit(c)
  {
    ('0' as int + d) as char
  }

  /** The decimal digits of `n`, without leading zeros: what a template literal shows for a
      non-negative integer. */
  function ShowNat(n: nat): (r: string)
    ensures |r| >= 1
    ensures forall i | 0 <= i < |r| :: IsDigit(r[i])
  {
    if n < 10 then [DigitChar(n)] else ShowNat(n / 10) + [DigitChar(n % 10)]
  }

  /** What a template literal shows for an integer: a minus sign before negative ones. */
  function ShowInt(i: int): string
  {
    if i < 0 then "-" + ShowNat(-i) else ShowNat(i)
  }

  function DigitValue(c: char): (d: nat)
    requires IsDigit(c)
    ensures d < 10 && DigitChar(d) == c
  {
    c as int - '0' as int
  }

  /** The number a string of decimal digits denotes. */
  function DigitsValue(s: string): nat
    requires forall i | 0 <= i < |s| :: IsDigit(s[i])
  {
    if |s| == 0 then 0 else DigitsValue(s[..|s| - 1]) * 10 + DigitValue(s[|s| - 1])
  }

  predicate AllDigits(s: string)
  {
    |s| > 0 && forall i | 0 <= i < |s| :: IsDigit(s[i])
  }

  /** Reads back an integer in the form `ShowInt` writes; None for anything else. */
  function ParseInt(s: string): Option<int>
  {
    if |s| > 0 && s[0] == '-' then
      if AllDigits(s[1..]) then Some(0 - DigitsValue(s[1..]) as int) else None
    else if AllDigits(s) then Some(DigitsValue(s))
    else None
  }

  lemma {:induction false} ShowNatRoundTrip(n: nat)
    ensures DigitsValue(ShowNat(n)) == n
  {
    if n >= 10 {
      var s := ShowNat(n);
      assert s[..|s| - 1] == ShowNat(n / 10);
      ShowNatRoundTrip(n / 10);
    }
  }

  /** Reading back the decimal rendering of an integer gives the integer. */
  lemma ShowIntRoundTrip(i: int)
    ensures ParseInt(ShowInt(i)) == Some(i)
  {
    var s := ShowInt(i);
    if i < 0 {
      assert s[0] == '-' && s[1..] == ShowNat(-i);
      assert AllDigits(s[1..]);
      ShowNatRoundTrip(-i);
    } else {
      assert s == ShowNat(i);
      assert IsDigit(s[0]) && AllDigits(s);
      ShowNatRoundTrip(i);
    }
  }
}
