/**
 * The two regular expressions of the registration form, /^1[3-9]\d{9}$/ for
 * mobile numbers and /^[^\s@]+@[^\s@]+\.[^\s@]+$/ for e-mail addresses, as
 * anchored patterns, a matcher for them, and what each one accepts stated
 * without reference to the matcher.
 */
module Pattern {
  import opened Text

  /** The character classes the two patterns use; \d is taken as the ASCII digits. */
  datatype CharClass =
    | Literal(c: char)
    | Between(lo: char, hi: char)
    | Digit
    | NotSpaceOrAt

  predicate IsDigit(c: char) {
    '0' <= c <= '9'
  }

  predicate InClass(k: CharClass, c: char) {
    match k
    case Literal(x) => c == x
    case Between(lo, hi) => lo <= c <= hi
    case Digit => IsDigit(c)
    case NotSpaceOrAt => !IsSpace(c) && c != '@'
  }

  predicate AllIn(k: CharClass, s: string) {
    forall i :: 0 <= i < |s| ==> InClass(k, s[i])
  }

  /** One element of a pattern: a class taken once, or taken one or more times (`+`). */
  datatype Piece = Once(k: CharClass) | OneOrMore(k: CharClass)

  /** The pattern, anchored at both ends (^...$), matches the whole of s; each `+` backtracks. */
  predicate Matches(p: seq<Piece>, s: string)
    decreases |p|, |s|
  {
    if p == [] then s == []
    else
      |s| > 0 && InClass(p[0].k, s[0]) &&
      match p[0]
      case Once(_) => Matches(p[1..], s[1..])
      case OneOrMore(_) => Matches(p[1..], s[1..]) || Matches(p, s[1..])
  }

  /** `k{n}`: n copies of a single occurrence of k. */
  function Repeat(k: CharClass, n: nat): (r: seq<Piece>)
    ensures |r| == n && forall i :: 0 <= i < n ==> r[i] == Once(k)
  {
    if n == 0 then [] else [Once(k)] + Repeat(k, n - 1)
  }

  /** /^1[3-9]\d{9}$/ */
  const PhonePattern: seq<Piece> := [Once(Literal('1')), Once(Between('3', '9'))] + Repeat(Digit, 9)

  /** /^[^\s@]+@[^\s@]+\.[^\s@]+$/ */
  const EmailPattern: seq<Piece> :=
    [OneOrMore(NotSpaceOrAt), Once(Literal('@')), OneOrMore(NotSpaceOrAt), Once(Literal('.')), OneOrMore(NotSpaceOrAt)]

  /** A mainland mobile number: eleven characters, `1`, then a digit 3-9, then nine digits. */
  predicate PhoneShape(s: string) {
    |s| == 11 && s[0] == '1' && '3' <= s[1] <= '9' &&
    forall i :: 2 <= i < 11 ==> IsDigit(s[i])
  }

  /** d contains a `.` that is neither its first nor its last character. */
  predicate HasInnerDot(d: string) {
    exists j :: 0 < j < |d| - 1 && d[j] == '.'
  }

  /**
   * The shape the e-mail pattern demands: no whitespace, exactly one `@`
   * with something before it, and after it a `.` that is neither the first
   * nor the last character of that part.
   */
  predicate EmailShape(s: string) {
    (forall i :: 0 <= i < |s| ==> !IsSpace(s[i])) &&
    exists at :: 0 < at < |s| && s[at] == '@' &&
                 (forall i :: 0 <= i < |s| && i != at ==> s[i] != '@') &&
                 HasInnerDot(s[at + 1..])
  }

  /** A pattern of single occurrences matches exactly the strings of its length, class by class. */
  lemma {:induction false} OnceOnlyMatches(p: seq<Piece>, s: string)
    requires forall i :: 0 <= i < |p| ==> p[i].Once?
    ensures Matches(p, s) <==> |s| == |p| && forall i :: 0 <= i < |p| ==> InClass(p[i].k, s[i])
  {
    if p != [] && |s| > 0 {
      OnceOnlyMatches(p[1..], s[1..]);
      if Matches(p, s) {
        forall i | 0 <= i < |p| ensures InClass(p[i].k, s[i]) {
          if i > 0 { assert p[1..][i - 1] == p[i] && s[1..][i - 1] == s[i]; }
        }
      }
      if |s| == |p| && forall i :: 0 <= i < |p| ==> InClass(p[i].k, s[i]) {
        assert forall i :: 0 <= i < |p| - 1 ==> p[1..][i] == p[i + 1] && s[1..][i] == s[i + 1];
      }
    }
  }

  /** The phone rule accepts s iff s is `1`, a digit 3-9 and nine ASCII digits. */
  lemma PhonePatternMeaning(s: string)
    ensures Matches(PhonePattern, s) <==> PhoneShape(s)
  {
    OnceOnlyMatches(PhonePattern, s);
    assert PhonePattern[0] == Once(Literal('1')) && PhonePattern[1] == Once(Between('3', '9'));
    assert forall i :: 2 <= i < 11 ==> PhonePattern[i] == Once(Digit);
  }

  /** `k+` followed by rest: some non-empty prefix is all k and rest matches the remainder. */
  lemma {:induction false} OneOrMoreElim(k: CharClass, rest: seq<Piece>, s: string) returns (n: nat)
    requires Matches([OneOrMore(k)] + rest, s)
    ensures 1 <= n <= |s| && AllIn(k, s[..n]) && Matches(rest, s[n..])
  {
    var p := [OneOrMore(k)] + rest;
    assert p[1..] == rest;
    if Matches(rest, s[1..]) {
      n := 1;
    } else {
      var m := OneOrMoreElim(k, rest, s[1..]);
      n := m + 1;
      assert s[1..][m..] == s[n..];
      forall i | 0 <= i < n ensures InClass(k, s[..n][i]) {
        if i > 0 { assert s[..n][i] == s[1..][..m][i - 1]; }
      }
    }
  }

  lemma {:induction false} OneOrMoreIntro(k: CharClass, rest: seq<Piece>, s: string, n: nat)
    requires 1 <= n <= |s| && AllIn(k, s[..n]) && Matches(rest, s[n..])
    ensures Matches([OneOrMore(k)] + rest, s)
  {
    var p := [OneOrMore(k)] + rest;
    assert p[1..] == rest;
    assert s[..n][0] == s[0];
    if n > 1 {
      assert s[1..][n - 1..] == s[n..];
      var t := s[1..][..n - 1];
      forall i | 0 <= i < n - 1 ensures InClass(k, t[i]) {
        assert t[i] == s[..n][i + 1];
      }
      OneOrMoreIntro(k, rest, s[1..], n - 1);
    }
  }

  /** `k+` alone matches exactly the non-empty strings all in k. */
  lemma OneOrMoreAlone(k: CharClass, s: string)
    ensures Matches([OneOrMore(k)], s) <==> |s| >= 1 && AllIn(k, s)
  {
    assert [OneOrMore(k)] == [OneOrMore(k)] + [];
    if Matches([OneOrMore(k)], s) {
      var n := OneOrMoreElim(k, [], s);
      assert s[..n] == s;
    }
    if |s| >= 1 && AllIn(k, s) {
      assert s[..|s|] == s;
      OneOrMoreIntro(k, [], s, |s|);
    }
  }

  /** The part after `@`: /[^\s@]+\.[^\s@]+$/. */
  const DomainPattern: seq<Piece> := [OneOrMore(NotSpaceOrAt), Once(Literal('.')), OneOrMore(NotSpaceOrAt)]

  lemma DomainPatternMeaning(d: string)
    ensures Matches(DomainPattern, d) <==> AllIn(NotSpaceOrAt, d) && HasInnerDot(d)
  {
    var tail := [Once(Literal('.')), OneOrMore(NotSpaceOrAt)];
    assert DomainPattern == [OneOrMore(NotSpaceOrAt)] + tail;
    assert tail[1..] == [OneOrMore(NotSpaceOrAt)];
    if Matches(DomainPattern, d) {
      var n := OneOrMoreElim(NotSpaceOrAt, tail, d);
      var u := d[n..];
      assert u[0] == '.' && Matches([OneOrMore(NotSpaceOrAt)], u[1..]);
      OneOrMoreAlone(NotSpaceOrAt, u[1..]);
      assert d[n] == '.' && n < |d| - 1;
      forall i | 0 <= i < |d| ensures InClass(NotSpaceOrAt, d[i]) {
        if i < n { assert d[..n][i] == d[i]; }
        else if i > n { assert u[1..][i - n - 1] == d[i]; }
      }
    }
    if AllIn(NotSpaceOrAt, d) && HasInnerDot(d) {
      var j :| 0 < j < |d| - 1 && d[j] == '.';
      var u := d[j..];
      assert forall i :: 0 <= i < |u| - 1 ==> u[1..][i] == d[j + 1 + i];
      OneOrMoreAlone(NotSpaceOrAt, u[1..]);
      assert Matches(tail, u);
      assert forall i :: 0 <= i < j ==> d[..j][i] == d[i];
      OneOrMoreIntro(NotSpaceOrAt, tail, d, j);
    }
  }

  /** The e-mail rule accepts s iff s has the shape described by EmailShape. */
  lemma EmailPatternMeaning(s: string)
    ensures Matches(EmailPattern, s) <==> EmailShape(s)
  {
    if Matches(EmailPattern, s) {
      EmailMatchHasShape(s);
    }
    if EmailShape(s) {
      EmailShapeMatches(s);
    }
  }

  lemma EmailMatchHasShape(s: string)
    requires Matches(EmailPattern, s)
    ensures EmailShape(s)
  {
    var tail := [Once(Literal('@'))] + DomainPattern;
    assert EmailPattern == [OneOrMore(NotSpaceOrAt)] + tail;
    assert tail[1..] == DomainPattern;
    var at := OneOrMoreElim(NotSpaceOrAt, tail, s);
    var u := s[at..];
    assert u[0] == '@' && Matches(DomainPattern, u[1..]);
    DomainPatternMeaning(u[1..]);
    assert u[1..] == s[at + 1..];
    forall i | 0 <= i < |s| && i != at ensures InClass(NotSpaceOrAt, s[i]) {
      if i < at { assert s[..at][i] == s[i]; }
      else { assert s[at + 1..][i - at - 1] == s[i]; }
    }
    assert s[at] == '@';
  }

  lemma EmailShapeMatches(s: string)
    requires EmailShape(s)
    ensures Matches(EmailPattern, s)
  {
    var tail := [Once(Literal('@'))] + DomainPattern;
    assert EmailPattern == [OneOrMore(NotSpaceOrAt)] + tail;
    assert tail[1..] == DomainPattern;
    var at :| 0 < at < |s| && s[at] == '@' &&
              (forall i :: 0 <= i < |s| && i != at ==> s[i] != '@') &&
              HasInnerDot(s[at + 1..]);
    var u := s[at..];
    assert forall i :: 0 <= i < |u| - 1 ==> u[1..][i] == s[at + 1 + i];
    DomainPatternMeaning(u[1..]);
    assert Matches(tail, u);
    assert forall i :: 0 <= i < at ==> s[..at][i] == s[i];
    OneOrMoreIntro(NotSpaceOrAt, tail, s, at);
  }
}
