/**
 * The JavaScript string built-ins the core relies on: `String.prototype.trim`,
 * the regular-expression class `\s`, `s.replace(/\s/g, '')` and `s.length`.
 *
 * Dafny strings are sequences of Unicode scalar values, whereas a JavaScript
 * string is a sequence of UTF-16 code units; `Utf16Length` gives the
 * JavaScript `length` of a Dafny string.
 */
module JsString {

  /** The characters that `trim` removes and that `\s` matches: the WhiteSpace
      and LineTerminator code points of ECMAScript (sections 12.2 and 12.3 of
      ECMA-262), with the space separators of Unicode category Zs spelt out. */
  predicate IsWhitespace(c: char) {
    || c == '\t' || c == '\n' || c == '\U{000B}' || c == '\U{000C}' || c == '\r'
    || c == ' ' || c == '\U{00A0}' || c == '\U{1680}'
    || ('\U{2000}' <= c <= '\U{200A}')
    || c == '\U{2028}' || c == '\U{2029}' || c == '\U{202F}' || c == '\U{205F}'
    || c == '\U{3000}' || c == '\U{FEFF}'
  }

  /** The regular-expression class `\d`: ASCII digits only. */
  predicate IsDigit(c: char) {
    '0' <= c <= '9'
  }

  ghost predicate AllWhitespace(s: string) {
    forall i :: 0 <= i < |s| ==> IsWhitespace(s[i])
  }

  /** The leading-whitespace half of `trim`. */
  function TrimStart(s: string): (r: string)
    ensures |r| <= |s| && r == s[|s| - |r|..]
    ensures forall i :: 0 <= i < |s| - |r| ==> IsWhitespace(s[i])
    ensures r != [] ==> !IsWhitespace(r[0])
  {
    if s != [] && IsWhitespace(s[0]) then TrimStart(s[1..]) else s
  }

  /** The trailing-whitespace half of `trim`. */
  function TrimEnd(s: string): (r: string)
    ensures |r| <= |s| && r == s[..|r|]
    ensures forall i :: |r| <= i < |s| ==> IsWhitespace(s[i])
    ensures r != [] ==> !IsWhitespace(r[|r| - 1])
  {
    if s != [] && IsWhitespace(s[|s| - 1]) then TrimEnd(s[..|s| - 1]) else s
  }

  /** `s.trim()`: `s` without its leading and trailing whitespace. The result
      is empty exactly when `s` is all whitespace (so `!s.trim()` holds), and
      otherwise starts and ends with a character that is not whitespace. */
  function Trim(s: string): (r: string)
    ensures |r| <= |s|
    ensures r == [] <==> AllWhitespace(s)
    ensures r != [] ==> !IsWhitespace(r[0]) && !IsWhitespace(r[|r| - 1])
  {
    var t := TrimStart(s);
    assert t != [] ==> t[0] == s[|s| - |t|];
    TrimEnd(t)
  }

  /** A string with no whitespace at either end is its own trim. */
  lemma TrimOfUntrimmable(s: string)
    requires s != [] ==> !IsWhitespace(s[0]) && !IsWhitespace(s[|s| - 1])
    ensures Trim(s) == s
  {
  }

  /** Trimming twice is trimming once. */
  lemma TrimIdempotent(s: string)
    ensures Trim(Trim(s)) == Trim(s)
  {
    TrimOfUntrimmable(Trim(s));
  }

  /** `s.replace(/\s/g, '')`: every whitespace character removed, the others
      kept in order. */
  function StripWhitespace(s: string): (r: string)
    ensures |r| <= |s|
    ensures forall i :: 0 <= i < |r| ==> !IsWhitespace(r[i])
  {
    if s == [] then []
    else if IsWhitespace(s[0]) then StripWhitespace(s[1..])
    else [s[0]] + StripWhitespace(s[1..])
  }

  /** A string without whitespace is left as it is. */
  lemma {:induction false} StripNoWhitespace(s: string)
    requires forall i :: 0 <= i < |s| ==> !IsWhitespace(s[i])
    ensures StripWhitespace(s) == s
  {
    if s != [] {
      StripNoWhitespace(s[1..]);
    }
  }

  lemma {:induction false} StripConcat(a: string, b: string)
    ensures StripWhitespace(a + b) == StripWhitespace(a) + StripWhitespace(b)
  {
    if a == [] {
      assert a + b == b;
    } else {
      assert (a + b)[1..] == a[1..] + b;
      StripConcat(a[1..], b);
    }
  }

  lemma {:induction false} StripAllWhitespace(s: string)
    requires AllWhitespace(s)
    ensures StripWhitespace(s) == []
  {
    if s != [] {
      StripAllWhitespace(s[1..]);
    }
  }

  /** Trimming before stripping whitespace makes no difference. */
  lemma {:induction false} StripTrimStart(s: string)
    ensures StripWhitespace(TrimStart(s)) == StripWhitespace(s)
  {
    if s != [] && IsWhitespace(s[0]) {
      StripTrimStart(s[1..]);
    }
  }

  lemma StripTrimEnd(s: string)
    ensures StripWhitespace(TrimEnd(s)) == StripWhitespace(s)
  {
    var r := TrimEnd(s);
    var tail := s[|r|..];
    assert s == r + tail;
    StripConcat(r, tail);
    StripAllWhitespace(tail);
  }

  /** Trimming before stripping whitespace makes no difference. */
  lemma StripTrim(s: string)
    ensures StripWhitespace(Trim(s)) == StripWhitespace(s)
  {
    StripTrimStart(s);
    StripTrimEnd(TrimStart(s));
  }

  /** The size of a code point in UTF-16 code units. */
  function Utf16Units(c: char): nat {
    if c as int > 0xFFFF then 2 else 1
  }

  /** JavaScript's `length`: the number of UTF-16 code units. It lies between
      the number of code points and twice that number, and it is 0 only for
      the empty string. */
  function Utf16Length(s: string): (n: nat)
    ensures |s| <= n <= 2 * |s|
    ensures n == 0 <==> s == []
  {
    if s == [] then 0 else Utf16Units(s[0]) + Utf16Length(s[1..])
  }

  /** For code points of the Basic Multilingual Plane, `length` is the
      number of characters. */
  lemma {:induction false} Utf16LengthOfBmp(s: string)
    requires forall i :: 0 <= i < |s| ==> s[i] as int <= 0xFFFF
    ensures Utf16Length(s) == |s|
  {
    if s != [] {
      Utf16LengthOfBmp(s[1..]);
    }
  }
}
