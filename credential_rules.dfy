/**
  The three credential rules that the account forms test with regular expressions,
  written character by character:

    username  ^[a-zA-Z][a-zA-Z0-9_]{5,29}$
    email     ^[^\s@]+@[^\s@]+\.[^\s@]+$
    password  ^(?=.*[a-z])(?=.*[A-Z])(?=.*\d)(?=.*[@$!%*?&])[A-Za-z\d@$!%*?&]{8,}$

  Each rule is given twice: a compiled predicate that states the rule the way a
  reader would check it by hand, and a ghost predicate that reads the regular
  expression literally (a decomposition of the string into the pieces the pattern
  names). A lemma proves the two agree on every string.
*/
module CredentialRules {

  // ---------------------------------------------------------------- character classes

  predicate IsLower(c: char) { 'a' <= c <= 'z' }

  predicate IsUpper(c: char) { 'A' <= c <= 'Z' }

  predicate IsLetter(c: char) { IsLower(c) || IsUpper(c) }

  /** `\d` without the `u` flag: the ASCII digits only. */
  predicate IsDigit(c: char) { '0' <= c <= '9' }

  /** The seven symbols the password rule asks for: `@ $ ! % * ? &`. */
  predicate IsSymbol(c: char) {
    c == '@' || c == '$' || c == '!' || c == '%' || c == '*' || c == '?' || c == '&'
  }

  /** `[a-zA-Z0-9_]` */
  predicate IsUsernameChar(c: char) { IsLetter(c) || IsDigit(c) || c == '_' }

  /** `[A-Za-z\d@$!%*?&]` */
  predicate IsPasswordChar(c: char) { IsLetter(c) || IsDigit(c) || IsSymbol(c) }

  /** The ECMAScript line terminators, which `.` does not match: LF, CR, U+2028, U+2029. */
  predicate IsLineTerminator(c: char) {
    c == '\n' || c == '\r' || c as int == 0x2028 || c as int == 0x2029
  }

  /**
    ECMAScript `\s`: the line terminators, TAB, VT, FF, SPACE, NO-BREAK SPACE, the
    byte order mark and the Unicode space separators (U+1680, U+2000..U+200A,
    U+202F, U+205F, U+3000). This fixed set is the model's reading of `\s`.
  */
  predicate IsWhitespace(c: char) {
    IsLineTerminator(c) || c == '\t' || c as int == 0x0B || c as int == 0x0C || c == ' ' ||
    c as int == 0xA0 || c as int == 0xFEFF || c as int == 0x1680 ||
    (0x2000 <= c as int <= 0x200A) || c as int == 0x202F || c as int == 0x205F || c as int == 0x3000
  }

  /** `[^\s@]`: one character of the local part, the domain or the top-level domain. */
  predicate IsAddressChar(c: char) { !IsWhitespace(c) && c != '@' }

  // ---------------------------------------------------------------- username

  /** The username rule: a letter, then 5 to 29 letters, digits or underscores. */
  predicate ValidUsername(s: string) {
    6 <= |s| <= 30 && IsLetter(s[0]) && forall i :: 1 <= i < |s| ==> IsUsernameChar(s[i])
  }

  predicate AllUsernameChars(s: string) {
    forall i :: 0 <= i < |s| ==> IsUsernameChar(s[i])
  }

  /** `^[a-zA-Z][a-zA-Z0-9_]{5,29}$` read literally. */
  ghost predicate UsernameShape(s: string) {
    exists head: char, tail: string ::
      IsLetter(head) && AllUsernameChars(tail) && s == [head] + tail && 5 <= |tail| <= 29
  }

  lemma UsernameMatchesShape(s: string)
    ensures ValidUsername(s) <==> UsernameShape(s)
  {
    if ValidUsername(s) {
      var tail := s[1..];
      assert AllUsernameChars(tail) by {
        forall i | 0 <= i < |tail| ensures IsUsernameChar(tail[i]) {
          assert tail[i] == s[i + 1];
        }
      }
      assert s == [s[0]] + tail;
    }
    if UsernameShape(s) {
      var head: char, tail: string :| IsLetter(head) && AllUsernameChars(tail) && s == [head] + tail && 5 <= |tail| <= 29;
      forall i | 1 <= i < |s| ensures IsUsernameChar(s[i]) {
        assert s[i] == tail[i - 1];
      }
    }
  }

  // ---------------------------------------------------------------- email

  predicate NoWhitespace(s: string) {
    forall i :: 0 <= i < |s| ==> !IsWhitespace(s[i])
  }

  /**
    The email rule: no whitespace; exactly one `@`, not in first position; after it,
    a `.` with at least one character between `@` and `.` and at least one after it.
  */
  predicate ValidEmail(s: string) {
    NoWhitespace(s) &&
    exists at :: 0 < at < |s| && s[at] == '@' &&
      (forall i :: 0 <= i < |s| && i != at ==> s[i] != '@') &&
      exists dot :: at + 1 < dot < |s| - 1 && s[dot] == '.'
  }

  predicate AllAddressChars(s: string) {
    forall i :: 0 <= i < |s| ==> IsAddressChar(s[i])
  }

  /** `^[^\s@]+@[^\s@]+\.[^\s@]+$` read literally: local part, `@`, domain, `.`, top-level part. */
  ghost predicate EmailShape(s: string) {
    exists local: string, domain: string, top: string ::
      AllAddressChars(local) && AllAddressChars(domain) && AllAddressChars(top) &&
      local != [] && domain != [] && top != [] &&
      s == local + "@" + domain + "." + top
  }

  lemma ValidEmailHasShape(s: string)
    requires ValidEmail(s)
    ensures EmailShape(s)
  {
    var at :| 0 < at < |s| && s[at] == '@' &&
      (forall i :: 0 <= i < |s| && i != at ==> s[i] != '@') &&
      exists dot :: at + 1 < dot < |s| - 1 && s[dot] == '.';
    var dot :| at + 1 < dot < |s| - 1 && s[dot] == '.';
    var local, domain, top := s[..at], s[at + 1..dot], s[dot + 1..];
    forall i | 0 <= i < |local| ensures IsAddressChar(local[i]) {
      assert local[i] == s[i];
    }
    forall i | 0 <= i < |domain| ensures IsAddressChar(domain[i]) {
      assert domain[i] == s[at + 1 + i];
    }
    forall i | 0 <= i < |top| ensures IsAddressChar(top[i]) {
      assert top[i] == s[dot + 1 + i];
    }
    assert AllAddressChars(local) && AllAddressChars(domain) && AllAddressChars(top);
    assert s == local + "@" + domain + "." + top;
  }

  lemma ShapeIsValidEmail(s: string)
    requires EmailShape(s)
    ensures ValidEmail(s)
  {
    var local: string, domain: string, top: string :|
      AllAddressChars(local) && AllAddressChars(domain) && AllAddressChars(top) &&
      local != [] && domain != [] && top != [] &&
      s == local + "@" + domain + "." + top;
    var at := |local|;
    var dot := |local| + 1 + |domain|;
    forall i | 0 <= i < |s|
      ensures !IsWhitespace(s[i]) && (i != at ==> s[i] != '@')
    {
      if i < at {
        assert s[i] == local[i];
      } else if at < i < dot {
        assert s[i] == domain[i - at - 1];
      } else if dot < i {
        assert s[i] == top[i - dot - 1];
      }
    }
    assert s[at] == '@' && s[dot] == '.';
  }

  lemma EmailMatchesShape(s: string)
    ensures ValidEmail(s) <==> EmailShape(s)
  {
    if ValidEmail(s) { ValidEmailHasShape(s); }
    if EmailShape(s) { ShapeIsValidEmail(s); }
  }

  // ---------------------------------------------------------------- password

  /** The four character classes the password rule's look-aheads ask for. */
  datatype CharClass = Lower | Upper | Digit | Symbol

  predicate InClass(c: char, k: CharClass) {
    match k
    case Lower => IsLower(c)
    case Upper => IsUpper(c)
    case Digit => IsDigit(c)
    case Symbol => IsSymbol(c)
  }

  predicate HasClass(s: string, k: CharClass) {
    exists i :: 0 <= i < |s| && InClass(s[i], k)
  }

  predicate AllPasswordChars(s: string) {
    forall i :: 0 <= i < |s| ==> IsPasswordChar(s[i])
  }

  /**
    The password rule: at least 8 characters, all from `[A-Za-z0-9@$!%*?&]`, with at
    least one lower-case letter, one upper-case letter, one digit and one symbol.
  */
  predicate ValidPassword(s: string) {
    8 <= |s| && AllPasswordChars(s) &&
    HasClass(s, Lower) && HasClass(s, Upper) && HasClass(s, Digit) && HasClass(s, Symbol)
  }

  /** The look-ahead `(?=.*[k])` at the start of the string: `.*` cannot cross a line terminator. */
  ghost predicate LookaheadFinds(s: string, k: CharClass) {
    exists j :: 0 <= j < |s| && InClass(s[j], k) &&
      forall i :: 0 <= i < j ==> !IsLineTerminator(s[i])
  }

  /** The password regular expression read literally: four look-aheads, then `[...]{8,}$`. */
  ghost predicate PasswordShape(s: string) {
    LookaheadFinds(s, Lower) && LookaheadFinds(s, Upper) &&
    LookaheadFinds(s, Digit) && LookaheadFinds(s, Symbol) &&
    8 <= |s| && AllPasswordChars(s)
  }

  lemma LookaheadOverPasswordChars(s: string, k: CharClass)
    requires AllPasswordChars(s)
    ensures LookaheadFinds(s, k) <==> HasClass(s, k)
  {
    if HasClass(s, k) {
      var j :| 0 <= j < |s| && InClass(s[j], k);
      forall i | 0 <= i < j ensures !IsLineTerminator(s[i]) {
        assert IsPasswordChar(s[i]);
      }
    }
  }

  lemma PasswordMatchesShape(s: string)
    ensures ValidPassword(s) <==> PasswordShape(s)
  {
    if AllPasswordChars(s) {
      LookaheadOverPasswordChars(s, Lower);
      LookaheadOverPasswordChars(s, Upper);
      LookaheadOverPasswordChars(s, Digit);
      LookaheadOverPasswordChars(s, Symbol);
    }
  }

  /** The string with every character of class `k` removed. */
  function Without(s: string, k: CharClass): (r: string)
    ensures |r| <= |s|
    ensures forall i :: 0 <= i < |r| ==> !InClass(r[i], k) && r[i] in s
    ensures forall i :: 0 <= i < |s| && !InClass(s[i], k) ==> s[i] in r
  {
    if s == [] then []
    else if InClass(s[0], k) then Without(s[1..], k)
    else [s[0]] + Without(s[1..], k)
  }

  /** Taking every character of one required class out of any password makes the rule reject it. */
  lemma MissingClassRejected(s: string, k: CharClass)
    ensures !ValidPassword(Without(s, k))
  {
    var r := Without(s, k);
    assert !HasClass(r, k);
  }

  // ---------------------------------------------------------------- worked example

  /** The registration example `alice01` / `a@example.com` / `Abcdef1!` satisfies all three rules. */
  lemma ScenarioCredentialsValid()
    ensures ValidUsername("alice01")
    ensures ValidEmail("a@example.com")
    ensures ValidPassword("Abcdef1!")
  {
    var e := "a@example.com";
    assert e[1] == '@' && e[9] == '.';
    var p := "Abcdef1!";
    assert InClass(p[1], Lower) && InClass(p[0], Upper) && InClass(p[6], Digit) && InClass(p[7], Symbol);
  }
}
