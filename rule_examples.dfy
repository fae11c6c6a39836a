/**
 * The rule verdicts on the values the page's rules are pinned down by:
 * `"abc"` and `"123"` are not phone numbers, `"(555) 123-4567"` and
 * `"555-123-4567"` are; `"a@b"` and `"a b@c.com"` are not e-mail
 * addresses, `"a@b.com"` is.
 */
module RuleExamples {
  import opened Text
  import opened Rules

  lemma PhoneRejectsLetters()
    ensures !IsValidPhone("abc")
  {
    assert !IsPhoneChar("abc"[0]);
  }

  lemma PhoneRejectsShort()
    ensures !IsValidPhone("123")
  {
    ValidPhoneNeedsTen("123");
  }

  /** `(555) 123-4567`, written as its runs of separators and digits. */
  lemma PhoneAcceptsFormatted()
    ensures IsValidPhone("(" + "555" + ") " + "123" + "-" + "4567")
  {
    GroupedDigitsAccepted("(", "555", ") ", "123", "-", "4567");
  }

  /** `555-123-4567`, written as its runs of separators and digits. */
  lemma PhoneAcceptsDashed()
    ensures IsValidPhone("" + "555" + "-" + "123" + "-" + "4567")
  {
    GroupedDigitsAccepted("", "555", "-", "123", "-", "4567");
  }

  lemma EmailRejectsMissingDot()
    ensures !IsValidEmail("a@b") && !MatchesEmailPattern("a@b")
  {
    IndexOfFirst("a@b", '@', 1);
    assert "a@b"[2..] == "b";
    EmailDescriptionMatchesPattern("a@b");
  }

  lemma EmailRejectsSpace()
    ensures !IsValidEmail("a b@c.com") && !MatchesEmailPattern("a b@c.com")
  {
    assert IsSpace("a b@c.com"[1]);
    EmailDescriptionMatchesPattern("a b@c.com");
  }

  /** `a@b.com`, written as the parts the pattern reads. */
  lemma EmailAcceptsSimple()
    ensures IsValidEmail("a" + "@" + ("b" + "." + "com"))
    ensures MatchesEmailPattern("a" + "@" + ("b" + "." + "com"))
  {
    assert AllPlain("a") && AllPlain("b") && AllPlain("com");
    ValidEmailOfParts("a", "b", "com");
    ValidEmailMatchesPattern("a" + "@" + ("b" + "." + "com"));
  }
}
