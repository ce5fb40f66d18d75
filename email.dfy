/**
 * The signup handler's email check: the regular expression `^[^\s@]+@[^\s@]+\.[^\s@]+$`
 * as a predicate on strings, and its plain-words characterisation.
 */
module EmailFormat {

  /** JavaScript's `\s` class: the ASCII blanks, NBSP, the Unicode space separators, LS, PS and BOM. */
  predicate IsSpace(c: char) {
    || c == ' ' || c == '\t' || c == '\n' || c == '\r' || c == '\U{B}' || c == '\U{C}'
    || c == '\U{A0}' || c == '\U{1680}' || ('\U{2000}' <= c <= '\U{200A}')
    || c == '\U{2028}' || c == '\U{2029}' || c == '\U{202F}' || c == '\U{205F}'
    || c == '\U{3000}' || c == '\U{FEFF}'
  }

  /** One character of the class `[^\s@]`. */
  predicate TokenChar(c: char) {
    !IsSpace(c) && c != '@'
  }

  /** A whole string matched by `[^\s@]+`. */
  predicate IsToken(s: string) {
    |s| > 0 && forall k | 0 <= k < |s| :: TokenChar(s[k])
  }

  /**
   * `emailRegex.test(s)`: the anchored pattern matches when `s` splits as
   * token '@' token '.' token, for some choice of the '@' and of the '.'.
   */
  predicate EmailRegexTest(s: string) {
    exists i, j | 0 <= i < j < |s| ::
      s[i] == '@' && s[j] == '.' && IsToken(s[..i]) && IsToken(s[i + 1..j]) && IsToken(s[j + 1..])
  }

  function AtCount(s: string): nat {
    if s == [] then 0 else (if s[0] == '@' then 1 else 0) + AtCount(s[1..])
  }

  predicate HasNoSpace(s: string) {
    forall k | 0 <= k < |s| :: !IsSpace(s[k])
  }

  /**
   * The same language in plain words: no whitespace, exactly one '@', a non-empty local
   * part, and a '.' after the '@' that is neither the first nor the last character of the domain.
   */
  predicate IsEmailShape(s: string) {
    && HasNoSpace(s)
    && AtCount(s) == 1
    && exists i | 0 < i < |s| && s[i] == '@' :: exists j | i + 1 < j < |s| - 1 :: s[j] == '.'
  }

  lemma {:induction false} AtCountAppend(a: string, b: string)
    ensures AtCount(a + b) == AtCount(a) + AtCount(b)
  {
    if a != [] {
      assert (a + b)[1..] == a[1..] + b;
      AtCountAppend(a[1..], b);
    } else {
      assert a + b == b;
    }
  }

  lemma {:induction false} AtCountZero(s: string)
    ensures AtCount(s) == 0 <==> forall k | 0 <= k < |s| :: s[k] != '@'
  {
    if s != [] {
      AtCountZero(s[1..]);
      assert forall k | 1 <= k < |s| :: s[k] == s[1..][k - 1];
    }
  }

  lemma RegexMatchHasShape(s: string, i: nat, j: nat)
    requires 0 <= i < j < |s| && s[i] == '@' && s[j] == '.'
    requires IsToken(s[..i]) && IsToken(s[i + 1..j]) && IsToken(s[j + 1..])
    ensures IsEmailShape(s)
  {
    var a, b, c := s[..i], s[i + 1..j], s[j + 1..];
    assert s == a + [s[i]] + b + [s[j]] + c;
    forall k | 0 <= k < |s| ensures !IsSpace(s[k]) {
      if k < i { assert s[k] == a[k]; }
      else if i < k < j { assert s[k] == b[k - i - 1]; }
      else if j < k { assert s[k] == c[k - j - 1]; }
    }
    AtCountZero(a);
    AtCountZero(b);
    AtCountZero(c);
    AtCountZero([s[j]]);
    AtCountAppend(a + [s[i]] + b + [s[j]], c);
    AtCountAppend(a + [s[i]] + b, [s[j]]);
    AtCountAppend(a + [s[i]], b);
    AtCountAppend(a, [s[i]]);
    assert i + 1 < j < |s| - 1 by { assert |b| > 0 && |c| > 0; }
  }

  lemma ShapeHasRegexMatch(s: string, i: nat, j: nat)
    requires HasNoSpace(s) && AtCount(s) == 1
    requires 0 < i < |s| && s[i] == '@' && i + 1 < j < |s| - 1 && s[j] == '.'
    ensures EmailRegexTest(s)
  {
    var a, d := s[..i], s[i + 1..];
    assert s == a + [s[i]] + d;
    AtCountAppend(a + [s[i]], d);
    AtCountAppend(a, [s[i]]);
    AtCountZero(a);
    AtCountZero(d);
    forall k | 0 <= k < |s| && k != i ensures TokenChar(s[k]) {
      if k < i { assert s[k] == a[k]; } else { assert s[k] == d[k - i - 1]; }
    }
    assert IsToken(s[..i]);
    assert IsToken(s[i + 1..j]);
    assert IsToken(s[j + 1..]);
  }

  /** The regular expression accepts exactly the strings of the plain-words description. */
  lemma EmailRegexCharacterized(s: string)
    ensures EmailRegexTest(s) <==> IsEmailShape(s)
  {
    if EmailRegexTest(s) {
      var i, j :| 0 <= i < j < |s| && s[i] == '@' && s[j] == '.'
        && IsToken(s[..i]) && IsToken(s[i + 1..j]) && IsToken(s[j + 1..]);
      RegexMatchHasShape(s, i, j);
    }
    if IsEmailShape(s) {
      var i :| 0 < i < |s| && s[i] == '@' && exists j | i + 1 < j < |s| - 1 :: s[j] == '.';
      var j :| i + 1 < j < |s| - 1 && s[j] == '.';
      ShapeHasRegexMatch(s, i, j);
    }
  }

  /** The address of the failing signup case ("testemail") has no '@' and is rejected. */
  lemma RejectsAddressWithoutAt()
    ensures !EmailRegexTest("testemail")
  {
    var s := "testemail";
    forall k | 0 <= k < |s| ensures s[k] != '@' { }
    AtCountZero(s);
    EmailRegexCharacterized(s);
  }

  /** The address of the passing signup case is accepted. */
  lemma AcceptsTestAddress()
    ensures EmailRegexTest("test1@example.com")
  {
    var s := "test1@example.com";
    assert s == "test1" + "@" + "example" + "." + "com";
    assert s[5] == '@' && s[13] == '.';
    assert s[..5] == "test1" && s[6..13] == "example" && s[14..] == "com";
    assert IsToken("test1") && IsToken("example") && IsToken("com");
  }
}
