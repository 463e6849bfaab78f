/** String helpers shared by the display rules: JavaScript's number-to-text
    conversion for integers, `split(sep)[0]`, `join` and `trim`. */
module Strings {

  predicate IsDigit(c: char) {
    '0' <= c <= '9'
  }

  predicate AllDigits(s: string) {
    forall i :: 0 <= i < |s| ==> IsDigit(s[i])
  }

  function DigitChar(d: nat): (c: char)
    requires d < 10
    ensures IsDigit(c)
  {
    ['0', '1', '2', '3', '4', '5', '6', '7', '8', '9'][d]
  }

  function DigitValue(c: char): (d: nat)
    requires IsDigit(c)
    ensures d < 10
  {
    (c as int - '0' as int) as nat
  }

  /** `${n}` for a non-negative integer: shortest decimal form, no leading zero. */
  function NatToString(n: nat): (s: string)
    ensures |s| > 0 && AllDigits(s)
    ensures |s| > 1 ==> s[0] != '0'
  {
    if n < 10 then [DigitChar(n)] else NatToString(n / 10) + [DigitChar(n % 10)]
  }

  /** `${i}` for any integer: a minus sign in front of negative values. */
  function IntToString(i: int): (s: string)
    ensures i >= 0 ==> s == NatToString(i)
    ensures i < 0 ==> s == "-" + NatToString(-i)
  {
    if i < 0 then "-" + NatToString(-i) else NatToString(i)
  }

  /** The number a string of decimal digits denotes. */
  function DecimalValue(s: string): nat
    requires AllDigits(s)
  {
    if s == [] then 0 else DecimalValue(s[..|s| - 1]) * 10 + DigitValue(s[|s| - 1])
  }

  lemma DigitRoundTrip(d: nat)
    requires d < 10
    ensures DigitValue(DigitChar(d)) == d
  {
  }

  /** Reading back what NatToString wrote gives the number again. */
  lemma {:induction false} NatToStringRoundTrip(n: nat)
    ensures DecimalValue(NatToString(n)) == n
  {
    var s := NatToString(n);
    if n < 10 {
      DigitRoundTrip(n);
      assert s[..0] == [];
    } else {
      NatToStringRoundTrip(n / 10);
      DigitRoundTrip(n % 10);
      assert s[..|s| - 1] == NatToString(n / 10);
    }
  }

  /** Distinct numbers are written differently. */
  lemma NatToStringInjective(m: nat, n: nat)
    requires NatToString(m) == NatToString(n)
    ensures m == n
  {
    NatToStringRoundTrip(m);
    NatToStringRoundTrip(n);
  }

  /** The longest prefix made of decimal digits. */
  function LeadingDigits(s: string): (r: string)
    ensures r <= s && AllDigits(r)
    ensures |r| < |s| ==> !IsDigit(s[|r|])
  {
    if s == [] || !IsDigit(s[0]) then [] else [s[0]] + LeadingDigits(s[1..])
  }

  lemma {:induction false} LeadingDigitsOfConcat(digits: string, rest: string)
    requires AllDigits(digits)
    requires rest == [] || !IsDigit(rest[0])
    ensures LeadingDigits(digits + rest) == digits
  {
    if digits != [] {
      assert (digits + rest)[1..] == digits[1..] + rest;
      LeadingDigitsOfConcat(digits[1..], rest);
    } else {
      assert digits + rest == rest;
    }
  }

  /** The count a label starts with: the number its leading digits denote. */
  function LeadingNumber(s: string): nat {
    DecimalValue(LeadingDigits(s))
  }

  /** A label built as `${n}` followed by non-digit text starts with n. */
  lemma LeadingNumberOfLabel(n: nat, rest: string)
    requires rest == [] || !IsDigit(rest[0])
    ensures LeadingNumber(NatToString(n) + rest) == n
  {
    LeadingDigitsOfConcat(NatToString(n), rest);
    NatToStringRoundTrip(n);
  }

  /** `s.split(sep)[0]`: the text before the first separator, or all of `s`. */
  function FirstPiece(s: string, sep: char): (r: string)
    ensures r <= s && sep !in r
    ensures |r| < |s| ==> s[|r|] == sep
  {
    if s == [] || s[0] == sep then [] else [s[0]] + FirstPiece(s[1..], sep)
  }

  /** The text after the first separator (the remaining pieces, joined again). */
  function AfterFirst(s: string, sep: char): (r: string)
    requires sep in s
    ensures |r| < |s|
  {
    s[|FirstPiece(s, sep)| + 1..]
  }

  /** Cutting at the first separator loses nothing. */
  lemma SplitAtFirst(s: string, sep: char)
    requires sep in s
    ensures s == FirstPiece(s, sep) + [sep] + AfterFirst(s, sep)
  {
  }

  /** `parts.join(sep)`. */
  function Join(parts: seq<string>, sep: string): (r: string)
    ensures |parts| == 1 ==> r == parts[0]
    ensures |parts| == 2 ==> r == parts[0] + sep + parts[1]
  {
    if parts == [] then ""
    else if |parts| == 1 then parts[0]
    else parts[0] + sep + Join(parts[1..], sep)
  }

  /** The characters `String.prototype.trim` removes: ECMAScript WhiteSpace
      (tab, vertical tab, form feed, space, no-break space, byte-order mark and
      the Unicode space separators) and LineTerminator. */
  const JsWhitespace: set<char> := {
    '\t', '\U{000B}', '\U{000C}', ' ', '\U{00A0}', '\U{FEFF}', '\U{1680}',
    '\U{2000}', '\U{2001}', '\U{2002}', '\U{2003}', '\U{2004}', '\U{2005}',
    '\U{2006}', '\U{2007}', '\U{2008}', '\U{2009}', '\U{200A}',
    '\U{202F}', '\U{205F}', '\U{3000}',
    '\n', '\r', '\U{2028}', '\U{2029}'}

  /** The first position at or after `i` whose character is not in `ws` (or
      `|s|`): where `trimStart` begins the text. */
  function SkipForward(s: string, ws: set<char>, i: nat): (k: nat)
    requires i <= |s|
    ensures i <= k <= |s|
    ensures forall j :: i <= j < k ==> s[j] in ws
    ensures k < |s| ==> s[k] !in ws
    decreases |s| - i
  {
    if i < |s| && s[i] in ws then SkipForward(s, ws, i + 1) else i
  }

  /** The end of `s[..j]` once the characters of `ws` are dropped from its end,
      never going below `lo`: where `trimEnd` ends the text. */
  function SkipBackward(s: string, ws: set<char>, lo: nat, j: nat): (k: nat)
    requires lo <= j <= |s|
    ensures lo <= k <= j
    ensures forall m :: k <= m < j ==> s[m] in ws
    ensures lo < k ==> s[k - 1] !in ws
    decreases j
  {
    if lo < j && s[j - 1] in ws then SkipBackward(s, ws, lo, j - 1) else j
  }

  /** Where the trimmed text starts: after the leading characters from `ws`. */
  function TrimFrom(s: string, ws: set<char>): nat
    ensures TrimFrom(s, ws) <= |s|
  {
    SkipForward(s, ws, 0)
  }

  /** Where the trimmed text ends: before the trailing characters from `ws`. */
  function TrimTo(s: string, ws: set<char>): nat
    ensures TrimFrom(s, ws) <= TrimTo(s, ws) <= |s|
  {
    SkipBackward(s, ws, TrimFrom(s, ws), |s|)
  }

  /** `s.trim()` (with `ws` the JavaScript whitespace): the slice of `s` between
      its leading and trailing characters from `ws`. */
  function Trim(s: string, ws: set<char>): (r: string)
    ensures TrimFrom(s, ws) + |r| <= |s|
    ensures r == s[TrimFrom(s, ws)..TrimFrom(s, ws) + |r|]
    ensures forall i :: 0 <= i < TrimFrom(s, ws) ==> s[i] in ws
    ensures forall i :: TrimFrom(s, ws) + |r| <= i < |s| ==> s[i] in ws
    ensures r != [] ==> r[0] !in ws && r[|r| - 1] !in ws
  {
    s[TrimFrom(s, ws)..TrimTo(s, ws)]
  }

  /** Trimming a prefix of `s` yields a slice of `s`. */
  lemma TrimOfPrefix(s: string, p: string, ws: set<char>)
    requires p <= s
    ensures TrimFrom(p, ws) + |Trim(p, ws)| <= |p|
    ensures Trim(p, ws) == s[TrimFrom(p, ws)..TrimFrom(p, ws) + |Trim(p, ws)|]
  {
    var lo, r := TrimFrom(p, ws), Trim(p, ws);
    assert forall k :: 0 <= k < |r| ==> r[k] == p[lo + k] == s[lo + k];
  }

  /** Inside a prefix of `s`, its trim cuts off only characters from `ws`. */
  lemma TrimOfPrefixCutsWhitespace(s: string, p: string, ws: set<char>)
    requires p <= s
    ensures forall i :: 0 <= i < TrimFrom(p, ws) ==> s[i] in ws
    ensures forall i :: TrimFrom(p, ws) + |Trim(p, ws)| <= i < |p| ==> s[i] in ws
  {
    assert forall i :: 0 <= i < |p| ==> s[i] == p[i];
  }

  /** Text with no trimmable character at either end is its own trim. */
  lemma TrimOfTrimmed(s: string, ws: set<char>)
    requires s != [] ==> s[0] !in ws && s[|s| - 1] !in ws
    ensures Trim(s, ws) == s
  {
  }
}
