/**
 * assets/js/validation.js: the client-side e-mail check, the regular expression
 * /^[^\s@]+@[^\s@]+\.[^\s@]+$/ (line 189), as a declarative match predicate and as a scanner,
 * proved equivalent.
 */
module Validation {

  /** JavaScript's \s: the ECMAScript white space and line terminator characters. */
  predicate JsSpace(c: char) {
    c in {'\t', '\n', '\U{B}', '\U{C}', '\r', ' ', '\U{A0}', '\U{1680}', '\U{2028}', '\U{2029}',
          '\U{202F}', '\U{205F}', '\U{3000}', '\U{FEFF}'}
    || ('\U{2000}' <= c <= '\U{200A}')
  }

  /** [^\s@] */
  predicate Plain(c: char) {
    !JsSpace(c) && c != '@'
  }

  /** The regular expression matches `e`: e == local + "@" + d1 + "." + d2 with the three parts
      non-empty runs of [^\s@] (the '.' itself is one of them too, so the split point is free). */
  predicate RegexMatches(e: string) {
    exists at, dot :: 0 < at && at + 1 < dot && dot + 1 < |e| && e[at] == '@' && e[dot] == '.'
      && forall k :: 0 <= k < |e| && k != at ==> Plain(e[k])
  }

  /** The number of occurrences of `c` in `s`. */
  function Count(s: string, c: char): (n: nat)
    ensures n <= |s|
  {
    if s == [] then 0 else Count(s[..|s| - 1], c) + (if s[|s| - 1] == c then 1 else 0)
  }

  /** The index of the first `c` in `s`, or |s|. */
  function IndexOf(s: string, c: char): (i: nat)
    ensures i <= |s|
    ensures i < |s| ==> s[i] == c
    ensures forall k :: 0 <= k < i ==> s[k] != c
  {
    if s == [] then 0 else if s[0] == c then 0 else 1 + IndexOf(s[1..], c)
  }

  /** A '.' strictly inside `d`. */
  predicate InnerDot(d: string) {
    exists k :: 0 < k < |d| - 1 && d[k] == '.'
  }

  /** isValidEmail, decided piece by piece: one '@', not first, no white space, and a '.'
      inside the domain. */
  predicate IsValidEmail(e: string) {
    var at := IndexOf(e, '@');
    && 0 < at < |e|
    && Count(e, '@') == 1
    && (forall k :: 0 <= k < |e| ==> !JsSpace(e[k]))
    && InnerDot(e[at + 1..])
  }

  lemma {:induction false} CountZero(s: string, c: char)
    ensures Count(s, c) == 0 <==> forall k :: 0 <= k < |s| ==> s[k] != c
  {
    if s != [] {
      CountZero(s[..|s| - 1], c);
      assert forall k :: 0 <= k < |s| - 1 ==> s[..|s| - 1][k] == s[k];
    }
  }

  /** Splitting the count at an index. */
  lemma {:induction false} CountAppend(a: string, b: string, c: char)
    ensures Count(a + b, c) == Count(a, c) + Count(b, c)
    decreases |b|
  {
    if b == [] {
      assert a + b == a;
    } else {
      assert (a + b)[..|a + b| - 1] == a + b[..|b| - 1];
      CountAppend(a, b[..|b| - 1], c);
    }
  }

  /** Exactly one `c` in `s`, at index i. */
  lemma CountOne(s: string, c: char, i: nat)
    requires i < |s| && s[i] == c
    ensures Count(s, c) == 1 <==> forall k :: 0 <= k < |s| && k != i ==> s[k] != c
  {
    assert s == s[..i] + [s[i]] + s[i + 1..];
    CountAppend(s[..i] + [s[i]], s[i + 1..], c);
    CountAppend(s[..i], [s[i]], c);
    assert Count([s[i]], c) == 1 by {
      assert [s[i]][..0] == [];
    }
    CountZero(s[..i], c);
    CountZero(s[i + 1..], c);
    assert forall k :: 0 <= k < i ==> s[..i][k] == s[k];
    assert forall k :: i < k < |s| ==> s[i + 1..][k - i - 1] == s[k];
  }

  /** The scanner accepts exactly the strings the regular expression matches. */
  lemma ValidEmailIsRegex(e: string)
    ensures IsValidEmail(e) <==> RegexMatches(e)
  {
    var at := IndexOf(e, '@');
    if IsValidEmail(e) {
      CountOne(e, '@', at);
      var d := e[at + 1..];
      var k :| 0 < k < |d| - 1 && d[k] == '.';
      var dot := at + 1 + k;
      assert e[dot] == '.';
      assert forall j :: 0 <= j < |e| && j != at ==> Plain(e[j]);
    }
    if RegexMatches(e) {
      var a, dot :| 0 < a && a + 1 < dot && dot + 1 < |e| && e[a] == '@' && e[dot] == '.'
        && forall k :: 0 <= k < |e| && k != a ==> Plain(e[k]);
      assert at == a;
      CountOne(e, '@', a);
      var d := e[a + 1..];
      assert d[dot - a - 1] == '.';
    }
  }

  /** What an accepted address looks like, from the regular expression alone: exactly one '@',
      no white space, a non-empty part before the '@', and a '.' in the part after it that is
      neither that part's first nor its last character. */
  lemma AcceptedShape(e: string)
    requires RegexMatches(e)
    ensures Count(e, '@') == 1
    ensures forall k :: 0 <= k < |e| ==> !JsSpace(e[k])
    ensures var at := IndexOf(e, '@'); 0 < at < |e| && InnerDot(e[at + 1..])
  {
    ValidEmailIsRegex(e);
  }

  /** Two '@' characters rule out a match. */
  lemma TwoAts(e: string, i: nat, j: nat)
    requires i < j < |e| && e[i] == '@' && e[j] == '@'
    ensures !RegexMatches(e)
  {
  }

  /** Small instances: accepted, a missing dot, a dot right after the '@', a second '@', a space. */
  lemma EmailExamples()
    ensures RegexMatches("a@b.c")
    ensures !RegexMatches("a@bc")
    ensures !RegexMatches("a@.c")
    ensures !RegexMatches("a@b@c.d")
    ensures !RegexMatches("a b@c.d")
  {
    assert Plain('a') && Plain('b') && Plain('c') && Plain('.');
    assert "a@b.c"[1] == '@' && "a@b.c"[3] == '.';
    var s := "a@b@c.d";
    TwoAts(s, 1, 3);
    var t := "a b@c.d";
    assert !Plain(t[1]);
  }
}
