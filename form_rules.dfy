/** The account form rules shared by the registration route and the login,
    registration and profile pages: the email and password patterns of
    src/app/register/page.tsx and src/app/login/page.tsx and the username
    pattern of src/app/api/register/route.ts, written as character predicates. */
module FormRules {
  import opened Text

  /** A character `[^\s@]` accepts. */
  predicate EmailChar(c: char) {
    !IsSpace(c) && c != '@'
  }

  predicate AllEmailChars(s: string) {
    forall i :: 0 <= i < |s| ==> EmailChar(s[i])
  }

  /** `s` has a '.' with at least one character on each side. */
  predicate HasInnerDot(host: string) {
    exists j :: 0 < j < |host| - 1 && host[j] == '.'
  }

  /** `validateEmail`: the text before the first '@' is a non-empty run of
      email characters, and the rest is a run of email characters with a dot
      inside it. */
  predicate ValidEmail(s: string) {
    '@' in s &&
    var at := IndexOf(s, '@');
    at > 0 && AllEmailChars(s[..at]) && AllEmailChars(s[at + 1..]) && HasInnerDot(s[at + 1..])
  }

  /** One way of reading `s` against `^[^\s@]+@[^\s@]+\.[^\s@]+$`: the '@'
      sits at `at` and the matched '.' at `dot`. */
  predicate EmailSplitAt(s: string, at: int, dot: int) {
    0 < at && at + 1 < dot && dot + 1 < |s| && s[at] == '@' && s[dot] == '.' &&
    AllEmailChars(s[..at]) && AllEmailChars(s[at + 1..dot]) && AllEmailChars(s[dot + 1..])
  }

  /** The email pattern read literally: some choice of '@' and '.' matches. */
  ghost predicate EmailPattern(s: string) {
    exists at, dot :: EmailSplitAt(s, at, dot)
  }

  lemma DotIsEmailChar()
    ensures EmailChar('.')
  {
  }

  lemma ValidEmailMatchesPattern(s: string)
    requires ValidEmail(s)
    ensures EmailPattern(s)
  {
    var at := IndexOf(s, '@');
    var host := s[at + 1..];
    var j :| 0 < j < |host| - 1 && host[j] == '.';
    var dot := at + 1 + j;
    assert s[at + 1..dot] == host[..j];
    assert s[dot + 1..] == host[j + 1..];
    assert EmailSplitAt(s, at, dot);
  }

  lemma PatternIsValidEmail(s: string, at: int, dot: int)
    requires EmailSplitAt(s, at, dot)
    ensures ValidEmail(s)
  {
    assert '@' !in s[..at] by {
      forall i | 0 <= i < at ensures s[..at][i] != '@' {
        assert EmailChar(s[..at][i]);
      }
    }
    var k := IndexOf(s, '@');
    assert s[..k + 1][at] == '@';
    var host := s[at + 1..];
    DotIsEmailChar();
    forall i | 0 <= i < |host| ensures EmailChar(host[i]) {
      if at + 1 + i < dot {
        assert host[i] == s[at + 1..dot][i];
      } else if at + 1 + i > dot {
        assert host[i] == s[dot + 1..][at + 1 + i - dot - 1];
      }
    }
    assert host[dot - at - 1] == '.';
  }

  /** `validateEmail` accepts exactly the texts the regular expression matches. */
  lemma ValidEmailIff(s: string)
    ensures ValidEmail(s) <==> EmailPattern(s)
  {
    if ValidEmail(s) {
      ValidEmailMatchesPattern(s);
    }
    if EmailPattern(s) {
      var at, dot :| EmailSplitAt(s, at, dot);
      PatternIsValidEmail(s, at, dot);
    }
  }

  /** A valid email is never empty, so it passes the route's presence check. */
  lemma ValidEmailNonEmpty(s: string)
    requires ValidEmail(s)
    ensures |s| >= 5
  {
    var at := IndexOf(s, '@');
    var host := s[at + 1..];
    var j :| 0 < j < |host| - 1 && host[j] == '.';
  }

  /** The characters of the password pattern's special class
      `[!@#$%^&*()_+\-=[\]{};':"\\|,.<>/?]`. */
  predicate IsSpecial(c: char) {
    c in "!@#$%^&*()_+-=[]{};':\"\\|,.<>/?"
  }

  /** `validatePassword`: at least eight characters, none a line terminator
      (`.` does not match one), with a lower-case letter, an upper-case letter,
      a digit and a special character somewhere. */
  predicate ValidPassword(p: string) {
    |p| >= 8 &&
    (forall i :: 0 <= i < |p| ==> !IsLineTerminator(p[i])) &&
    (exists i :: 0 <= i < |p| && IsAsciiLower(p[i])) &&
    (exists i :: 0 <= i < |p| && IsAsciiUpper(p[i])) &&
    (exists i :: 0 <= i < |p| && IsDigit(p[i])) &&
    (exists i :: 0 <= i < |p| && IsSpecial(p[i]))
  }

  /** One accepted and three refused passwords. */
  lemma PasswordExamples()
    ensures ValidPassword("Secret1!")
    ensures !ValidPassword("secret1!")
    ensures !ValidPassword("Secret1")
    ensures !ValidPassword("Secret1!\n")
  {
    var p := "Secret1!";
    assert IsAsciiLower(p[1]) && IsAsciiUpper(p[0]) && IsDigit(p[6]) && IsSpecial(p[7]);
    var q := "secret1!";
    assert forall i :: 0 <= i < |q| ==> !IsAsciiUpper(q[i]);
    var r := "Secret1!\n";
    assert IsLineTerminator(r[8]);
  }

  /** `[a-zA-Z0-9_]`. */
  predicate UsernameChar(c: char) {
    IsAsciiAlnum(c) || c == '_'
  }

  /** The route's username pattern `^[a-zA-Z0-9_]{3,20}$`. */
  predicate ValidUsername(u: string) {
    3 <= |u| <= 20 && forall i :: 0 <= i < |u| ==> UsernameChar(u[i])
  }

  /** The answer to a form's request: the status was ok or not, with the
      `error` text of the body ("" when it has none); or the request or the
      reading of its body rejected. */
  datatype Reply = Replied(ok: bool, error: string) | Rejected

  /** `data.error || fallback`. */
  function ErrorOr(error: string, fallback: string): (r: string)
    ensures error != "" ==> r == error
    ensures error == "" ==> r == fallback
  {
    if error != "" then error else fallback
  }
}
