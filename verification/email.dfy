/** The e-mail shape the student login form accepts: the regular expression
    `^[^\s@]+@[^\s@]+\.[^\s@]+$`, that is a non-empty local part, one `@`,
    a non-empty domain label, a dot, and a non-empty tail, none of them
    holding whitespace or a further `@`. */
module Email {
  import opened Optional
  import opened Text

  /** Every character belongs to the class `[^\s@]`. */
  predicate Plain(s: string) {
    forall i :: 0 <= i < |s| ==> !IsWhitespace(s[i]) && s[i] != '@'
  }

  /** The language of the regular expression, written as the split it
      demands: `s == A + "@" + B + "." + C` with `A`, `B`, `C` non-empty and
      plain. */
  ghost predicate MatchesEmailPattern(s: string) {
    exists at: nat, dot: nat ::
      && 0 < at && at + 1 < dot && dot + 1 < |s|
      && s[at] == '@' && s[dot] == '.'
      && Plain(s[..at]) && Plain(s[at + 1..dot]) && Plain(s[dot + 1..])
  }

  /** The first position of `c` in `s`, if any. */
  function IndexOf(s: string, c: char): (r: Option<nat>)
    ensures r.None? ==> c !in s
    ensures r.Some? ==> r.value < |s| && s[r.value] == c && c !in s[..r.value]
  {
    if s == [] then None
    else if s[0] == c then Some(0)
    else
      match IndexOf(s[1..], c)
      case None => None
      case Some(k) => assert s[..k + 1] == [s[0]] + s[1..][..k]; Some(k + 1)
  }

  /** A single left-to-right decision: find the `@`, require a plain local
      part before it and a plain domain after it, and a dot in the domain
      that is neither its first nor its last character. */
  function IsEmailShaped(s: string): bool {
    match IndexOf(s, '@')
    case None => false
    case Some(at) =>
      var domain := s[at + 1..];
      && 0 < at && Plain(s[..at]) && Plain(domain)
      && 3 <= |domain| && '.' in domain[1..|domain| - 1]
  }

  /** A position holding `c` with no `c` before it is the one found. */
  lemma {:induction false} IndexOfFirst(s: string, c: char, at: nat)
    requires at < |s| && s[at] == c && c !in s[..at]
    ensures IndexOf(s, c) == Some(at)
  {
    if at > 0 {
      assert s[0] == s[..at][0];
      assert s[1..][..at - 1] == s[..at][1..];
      IndexOfFirst(s[1..], c, at - 1);
    }
  }

  /** Any slice of a plain string is plain. */
  lemma PlainSlice(s: string, i: nat, j: nat)
    requires Plain(s) && i <= j <= |s|
    ensures Plain(s[i..j])
  {
    assert forall k :: 0 <= k < j - i ==> s[i..j][k] == s[i + k];
  }

  /** The three plain parts around `@` and `.` glue into a plain domain. */
  lemma PlainJoin(b: string, c: string)
    requires Plain(b) && Plain(c)
    ensures Plain(b + ['.'] + c)
  {
    var d := b + ['.'] + c;
    forall i | 0 <= i < |d| ensures !IsWhitespace(d[i]) && d[i] != '@' {
      if i < |b| {
        assert d[i] == b[i];
      } else if i > |b| {
        assert d[i] == c[i - |b| - 1];
      }
    }
  }

  /** A split with the three plain parts is a witness of the pattern. */
  lemma SplitMatchesPattern(s: string, at: nat, dot: nat)
    requires 0 < at && at + 1 < dot && dot + 1 < |s|
    requires s[at] == '@' && s[dot] == '.'
    requires Plain(s[..at]) && Plain(s[at + 1..dot]) && Plain(s[dot + 1..])
    ensures MatchesEmailPattern(s)
  {
  }

  lemma ShapedMatchesPattern(s: string)
    requires IsEmailShaped(s)
    ensures MatchesEmailPattern(s)
  {
    var at := IndexOf(s, '@').value;
    var domain := s[at + 1..];
    var n := |domain|;
    assert 0 < at && Plain(s[..at]) && Plain(domain) && 3 <= n;
    assert '.' in domain[1..n - 1];
    var k :| 0 <= k < n - 2 && domain[1..n - 1][k] == '.';
    var j := k + 1;
    assert domain[j] == '.';
    PlainSlice(domain, 0, j);
    PlainSlice(domain, j + 1, n);
    assert domain[0..j] == s[at + 1..at + 1 + j];
    assert domain[j + 1..n] == s[at + 2 + j..];
    SplitMatchesPattern(s, at, at + 1 + j);
  }

  lemma PlainHasNoAt(s: string)
    requires Plain(s)
    ensures '@' !in s
  {
  }

  lemma SplitIsShaped(s: string, at: nat, dot: nat)
    requires 0 < at && at + 1 < dot && dot + 1 < |s|
    requires s[at] == '@' && s[dot] == '.'
    requires Plain(s[..at]) && Plain(s[at + 1..dot]) && Plain(s[dot + 1..])
    ensures IsEmailShaped(s)
  {
    PlainHasNoAt(s[..at]);
    IndexOfFirst(s, '@', at);
    var domain := s[at + 1..];
    assert domain == s[at + 1..dot] + ['.'] + s[dot + 1..];
    PlainJoin(s[at + 1..dot], s[dot + 1..]);
    assert domain[1..|domain| - 1][dot - at - 2] == '.';
  }

  lemma PatternIsShaped(s: string)
    requires MatchesEmailPattern(s)
    ensures IsEmailShaped(s)
  {
    var at: nat, dot: nat :|
      && 0 < at && at + 1 < dot && dot + 1 < |s|
      && s[at] == '@' && s[dot] == '.'
      && Plain(s[..at]) && Plain(s[at + 1..dot]) && Plain(s[dot + 1..]);
    SplitIsShaped(s, at, dot);
  }

  /** The decision procedure accepts exactly the strings the regular
      expression matches. */
  lemma IsEmailShapedCorrect(s: string)
    ensures IsEmailShaped(s) <==> MatchesEmailPattern(s)
  {
    if IsEmailShaped(s) {
      ShapedMatchesPattern(s);
    }
    if MatchesEmailPattern(s) {
      PatternIsShaped(s);
    }
  }
}
