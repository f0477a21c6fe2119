/** Character classes and string helpers the login forms rely on: the
    ECMAScript `\d` and `\s` classes, the `replace(/\D/g, '')` digit filter
    and `String.prototype.trim`. */
module Text {

  /** ECMAScript `\d`: the ASCII digits and nothing else. */
  predicate IsDigit(c: char) {
    '0' <= c <= '9'
  }

  /** ECMAScript `\s`, which is also exactly the set `trim()` strips:
      the WhiteSpace and LineTerminator code points. */
  const WhitespaceChars: set<char> := {
    '\t', '\n', '\U{000B}', '\U{000C}', '\r', ' ', '\U{00A0}', '\U{1680}',
    '\U{2000}', '\U{2001}', '\U{2002}', '\U{2003}', '\U{2004}', '\U{2005}',
    '\U{2006}', '\U{2007}', '\U{2008}', '\U{2009}', '\U{200A}',
    '\U{2028}', '\U{2029}', '\U{202F}', '\U{205F}', '\U{3000}', '\U{FEFF}'
  }

  predicate IsWhitespace(c: char) {
    c in WhitespaceChars
  }

  predicate AllDigits(s: string) {
    forall i :: 0 <= i < |s| ==> IsDigit(s[i])
  }

  predicate AllWhitespace(s: string) {
    forall i :: 0 <= i < |s| ==> IsWhitespace(s[i])
  }

  /** The positions of `s` that hold a digit. */
  ghost function DigitPositions(s: string): set<nat> {
    set i: nat | i < |s| && IsDigit(s[i])
  }

  /** `s.replace(/\D/g, '')`: every non-digit removed, the digits kept. */
  function DigitsOnly(s: string): (r: string)
    ensures AllDigits(r)
    ensures forall c {:trigger multiset(r)[c]} ::
      multiset(r)[c] == (if IsDigit(c) then multiset(s)[c] else 0)
  {
    if s == [] then []
    else
      assert s == [s[0]] + s[1..];
      if IsDigit(s[0]) then [s[0]] + DigitsOnly(s[1..]) else DigitsOnly(s[1..])
  }

  /** A string that is already all digits passes the filter unchanged, so
      the filter is idempotent. */
  lemma {:induction false} DigitsOnlyKeepsDigits(s: string)
    requires AllDigits(s)
    ensures DigitsOnly(s) == s
  {
    if s != [] {
      DigitsOnlyKeepsDigits(s[1..]);
    }
  }

  lemma {:induction false} DigitsOnlyAppend(a: string, b: string)
    ensures DigitsOnly(a + b) == DigitsOnly(a) + DigitsOnly(b)
  {
    if a == [] {
      assert a + b == b;
    } else {
      assert (a + b)[1..] == a[1..] + b;
      DigitsOnlyAppend(a[1..], b);
    }
  }

  /** The filter keeps exactly one character per digit position of its input. */
  lemma {:induction false} DigitsOnlyLength(s: string)
    ensures |DigitsOnly(s)| == |DigitPositions(s)|
  {
    if s == [] {
      assert DigitPositions(s) == {};
    } else {
      var init, c := s[..|s| - 1], s[|s| - 1];
      assert s == init + [c];
      DigitsOnlyAppend(init, [c]);
      assert DigitsOnly([c]) == (if IsDigit(c) then [c] else []);
      DigitsOnlyLength(init);
      var last: nat := |init|;
      assert DigitPositions(s) == DigitPositions(init) + (if IsDigit(c) then {last} else {});
      assert last !in DigitPositions(init);
    }
  }

  /** Leading whitespace removed: nothing is left exactly when `s` is all
      whitespace, and what is left does not start with whitespace. */
  function TrimStart(s: string): (r: string)
    ensures r == [] <==> AllWhitespace(s)
    ensures r == [] || !IsWhitespace(r[0])
  {
    if s != [] && IsWhitespace(s[0]) then TrimStart(s[1..]) else s
  }

  /** Trailing whitespace removed: nothing is left exactly when `s` is all
      whitespace, and what is left does not end with whitespace. */
  function TrimEnd(s: string): (r: string)
    ensures r == [] <==> AllWhitespace(s)
    ensures r == [] || !IsWhitespace(r[|r| - 1])
  {
    if s != [] && IsWhitespace(s[|s| - 1]) then TrimEnd(s[..|s| - 1]) else s
  }

  lemma AllWhitespaceConcat(a: string, b: string)
    requires AllWhitespace(a) && AllWhitespace(b)
    ensures AllWhitespace(a + b)
  {
    forall i | 0 <= i < |a + b| ensures IsWhitespace((a + b)[i]) {
      if i < |a| {
        assert (a + b)[i] == a[i];
      } else {
        assert (a + b)[i] == b[i - |a|];
      }
    }
  }

  /** What `TrimStart` removes is a whitespace prefix: its result is the
      rest of `s`. */
  lemma {:induction false} TrimStartDropsWhitespacePrefix(s: string)
    ensures |TrimStart(s)| <= |s|
    ensures TrimStart(s) == s[|s| - |TrimStart(s)|..]
    ensures AllWhitespace(s[..|s| - |TrimStart(s)|])
  {
    if s != [] && IsWhitespace(s[0]) {
      TrimStartDropsWhitespacePrefix(s[1..]);
      var k := |s| - |TrimStart(s)|;
      assert s[1..][k - 1..] == s[k..];
      assert s[..k] == [s[0]] + s[1..][..k - 1];
      AllWhitespaceConcat([s[0]], s[1..][..k - 1]);
    }
  }

  /** What `TrimEnd` removes is a whitespace suffix: its result is the
      beginning of `s`. */
  lemma {:induction false} TrimEndDropsWhitespaceSuffix(s: string)
    ensures |TrimEnd(s)| <= |s|
    ensures TrimEnd(s) == s[..|TrimEnd(s)|]
    ensures AllWhitespace(s[|TrimEnd(s)|..])
  {
    if s != [] && IsWhitespace(s[|s| - 1]) {
      var init := s[..|s| - 1];
      TrimEndDropsWhitespaceSuffix(init);
      var k := |TrimEnd(s)|;
      assert init[..k] == s[..k];
      assert s[k..] == init[k..] + [s[|s| - 1]];
      AllWhitespaceConcat(init[k..], [s[|s| - 1]]);
    }
  }

  /** `s.trim()`. The forms test `!s.trim()`, which holds exactly when `s`
      consists of whitespace only (the empty string included). */
  function Trim(s: string): (r: string)
    ensures r == [] || (!IsWhitespace(r[0]) && !IsWhitespace(r[|r| - 1]))
    ensures r == [] <==> AllWhitespace(s)
  {
    var t := TrimStart(s);
    TrimEndDropsWhitespaceSuffix(t);
    TrimEnd(t)
  }

  /** JavaScript's `!s.trim()`. */
  predicate IsBlank(s: string) {
    Trim(s) == []
  }
}
