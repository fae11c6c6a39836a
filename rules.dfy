/**
 * The field rules of the two forms, written as predicates over the trimmed
 * value: the phone pattern `^[\d\s\-\+\(\)]+$` with its ten-digit minimum,
 * the e-mail pattern `^[^\s@]+@[^\s@]+\.[^\s@]+$`, and the two-unit name
 * minimum.
 */
module Rules {
  import opened Text

  // ---------------------------------------------------------------- phone

  /** `\d`: an ASCII decimal digit. */
  predicate IsDigit(c: char)
  {
    '0' <= c <= '9'
  }

  /** A character of the class `[\d\s\-\+\(\)]`. */
  predicate IsPhoneChar(c: char)
  {
    IsDigit(c) || IsSpace(c) || c == '-' || c == '+' || c == '(' || c == ')'
  }

  /** `s.replace(/\D/g, '')`: the digits of `s`, in order. */
  function Digits(s: string): (r: string)
    ensures |r| <= |s|
    ensures forall k :: 0 <= k < |r| ==> IsDigit(r[k])
  {
    if s == [] then []
    else if IsDigit(s[0]) then [s[0]] + Digits(s[1..])
    else Digits(s[1..])
  }

  /** Stripping non-digits keeps every digit of `s`, as often as it occurs,
      and nothing else. */
  lemma {:induction false} DigitsKeepsAllDigits(s: string, c: char)
    ensures multiset(Digits(s))[c] == if IsDigit(c) then multiset(s)[c] else 0
  {
    if s != [] {
      assert s == [s[0]] + s[1..];
      DigitsKeepsAllDigits(s[1..], c);
    }
  }

  /** The phone pattern tested on the trimmed value: one or more characters,
      all from the phone class, and at least ten of them digits. */
  predicate IsValidPhone(s: string)
  {
    && s != []
    && AllPhoneChars(s)
    && |Digits(s)| >= 10
  }

  predicate AllPhoneChars(s: string)
  {
    forall k :: 0 <= k < |s| ==> IsPhoneChar(s[k])
  }

  lemma {:induction false} DigitsConcat(a: string, b: string)
    ensures Digits(a + b) == Digits(a) + Digits(b)
  {
    if a == [] {
      assert a + b == b;
    } else {
      assert (a + b)[1..] == a[1..] + b;
      DigitsConcat(a[1..], b);
    }
  }

  /** Separators between digits do not matter: inserting one of space, `-`,
      `+`, `(` or `)` anywhere leaves the phone verdict unchanged. */
  lemma SeparatorIgnored(a: string, b: string, sep: char)
    requires sep == ' ' || sep == '-' || sep == '+' || sep == '(' || sep == ')'
    ensures IsValidPhone(a + [sep] + b) <==> IsValidPhone(a + b)
  {
    DigitsConcat(a, [sep] + b);
    DigitsConcat([sep], b);
    DigitsConcat(a, b);
    assert a + [sep] + b == a + ([sep] + b);
    var s, t := a + [sep] + b, a + b;
    assert AllPhoneChars(s) <==> AllPhoneChars(t) by {
      if AllPhoneChars(t) {
        forall k | 0 <= k < |s| ensures IsPhoneChar(s[k]) {
          if k < |a| { assert s[k] == t[k]; }
          else if k > |a| { assert s[k] == t[k - 1]; }
        }
      }
      if AllPhoneChars(s) {
        forall k | 0 <= k < |t| ensures IsPhoneChar(t[k]) {
          if k < |a| { assert s[k] == t[k]; } else { assert s[k + 1] == t[k]; }
        }
      }
    }
  }

  /** An accepted phone value has at least ten characters. */
  lemma ValidPhoneIsLong(s: string)
    requires IsValidPhone(s)
    ensures |s| >= 10
  {
  }

  lemma {:induction false} DigitsOfDigits(s: string)
    requires AllDigits(s)
    ensures Digits(s) == s
  {
    if s != [] { DigitsOfDigits(s[1..]); }
  }

  lemma {:induction false} DigitsOfSeparators(s: string)
    requires forall k :: 0 <= k < |s| ==> !IsDigit(s[k])
    ensures Digits(s) == []
  {
    if s != [] { DigitsOfSeparators(s[1..]); }
  }

  /** Phone separators: characters of the phone class that are not digits. */
  predicate AllSeparators(s: string)
  {
    forall k :: 0 <= k < |s| ==> IsPhoneChar(s[k]) && !IsDigit(s[k])
  }

  predicate AllDigits(s: string)
  {
    forall k :: 0 <= k < |s| ==> IsDigit(s[k])
  }

  lemma {:induction false} AllPhoneCharsConcat(a: string, b: string)
    requires AllPhoneChars(a) && AllPhoneChars(b)
    ensures AllPhoneChars(a + b)
  {
    forall k | 0 <= k < |a + b| ensures IsPhoneChar((a + b)[k]) {
      if k < |a| { assert (a + b)[k] == a[k]; } else { assert (a + b)[k] == b[k - |a|]; }
    }
  }

  /** Three runs of digits, ten or more in all, each run preceded by
      separators (as in `(555) 123-4567` or `555-123-4567`), pass the phone rule. */
  lemma GroupedDigitsAccepted(s1: string, a: string, s2: string, b: string, s3: string, c: string)
    requires AllSeparators(s1) && AllSeparators(s2) && AllSeparators(s3)
    requires AllDigits(a) && AllDigits(b) && AllDigits(c)
    requires |a| + |b| + |c| >= 10
    ensures IsValidPhone(s1 + a + s2 + b + s3 + c)
  {
    DigitsOfSeparators(s1);
    DigitsOfSeparators(s2);
    DigitsOfSeparators(s3);
    DigitsOfDigits(a);
    DigitsOfDigits(b);
    DigitsOfDigits(c);
    DigitsConcat(s1, a);
    DigitsConcat(s1 + a, s2);
    DigitsConcat(s1 + a + s2, b);
    DigitsConcat(s1 + a + s2 + b, s3);
    DigitsConcat(s1 + a + s2 + b + s3, c);
    AllPhoneCharsConcat(s1, a);
    AllPhoneCharsConcat(s1 + a, s2);
    AllPhoneCharsConcat(s1 + a + s2, b);
    AllPhoneCharsConcat(s1 + a + s2 + b, s3);
    AllPhoneCharsConcat(s1 + a + s2 + b + s3, c);
  }

  lemma ValidPhoneNeedsTen(s: string)
    requires |s| < 10
    ensures !IsValidPhone(s)
  {
    if IsValidPhone(s) { ValidPhoneIsLong(s); }
  }

  // ---------------------------------------------------------------- e-mail

  /** `[^\s@]`: neither white space nor `@`. */
  predicate IsPlain(c: char)
  {
    !IsSpace(c) && c != '@'
  }

  predicate AllPlain(s: string)
  {
    forall k :: 0 <= k < |s| ==> IsPlain(s[k])
  }

  /** What the e-mail pattern matches, read off its structure: a non-empty
      plain run, `@`, a non-empty plain run, `.`, a non-empty plain run. */
  ghost predicate MatchesEmailPattern(s: string)
  {
    exists i, j :: && 0 < i && i + 1 < j && j + 1 < |s|
                   && s[i] == '@' && s[j] == '.'
                   && AllPlain(s[..i]) && AllPlain(s[i + 1..j]) && AllPlain(s[j + 1..])
  }

  /** The index of the first `c` in `s`, or `|s|` if there is none. */
  function IndexOf(s: string, c: char): (i: nat)
    ensures i <= |s|
    ensures i < |s| ==> s[i] == c
    ensures forall k :: 0 <= k < i ==> s[k] != c
  {
    if s == [] then 0
    else if s[0] == c then 0
    else 1 + IndexOf(s[1..], c)
  }

  predicate HasInnerDot(d: string)
  {
    exists k :: 0 < k < |d| - 1 && d[k] == '.'
  }

  /** The e-mail rule as a checkable description: no white space, exactly one
      `@`, something before it, and after it a `.` with a character on each side. */
  predicate IsValidEmail(s: string)
  {
    && NoSpace(s)
    && multiset(s)['@'] == 1
    && var at := IndexOf(s, '@');
       0 < at < |s| && HasInnerDot(s[at + 1..])
  }

  lemma {:induction false} NotInMultiset(s: string, c: char)
    requires forall k :: 0 <= k < |s| ==> s[k] != c
    ensures multiset(s)[c] == 0
  {
    if s != [] {
      assert s == [s[0]] + s[1..];
      NotInMultiset(s[1..], c);
    }
  }

  lemma {:induction false} InMultiset(s: string, k: nat)
    requires k < |s|
    ensures multiset(s)[s[k]] >= 1
  {
    assert s == s[..k] + [s[k]] + s[k + 1..];
  }

  /** Every string the checkable description accepts matches the pattern. */
  lemma ValidEmailMatchesPattern(s: string)
    requires IsValidEmail(s)
    ensures MatchesEmailPattern(s)
  {
    var at := IndexOf(s, '@');
    var d := s[at + 1..];
    var k :| 0 < k < |d| - 1 && d[k] == '.';
    var j := at + 1 + k;
    assert s == s[..at] + [s[at]] + d;
    assert multiset(d)['@'] == 0;
    forall m | 0 <= m < |d| ensures d[m] != '@' {
      InMultiset(d, m);
    }
    assert AllPlain(s[..at]);
    assert AllPlain(s[at + 1..j]) by {
      assert s[at + 1..j] == d[..k];
    }
    assert AllPlain(s[j + 1..]) by {
      assert s[j + 1..] == d[k + 1..];
    }
    assert s[j] == '.';
  }

  lemma {:induction false} AllPlainConcat(a: string, b: string)
    requires AllPlain(a) && AllPlain(b)
    ensures AllPlain(a + b)
  {
    forall k | 0 <= k < |a + b| ensures IsPlain((a + b)[k]) {
      if k < |a| { assert (a + b)[k] == a[k]; } else { assert (a + b)[k] == b[k - |a|]; }
    }
  }

  lemma {:induction false} AllPlainHasNoAt(s: string)
    requires AllPlain(s)
    ensures multiset(s)['@'] == 0 && NoSpace(s)
  {
    NotInMultiset(s, '@');
  }

  lemma {:induction false} IndexOfFirst(s: string, c: char, i: nat)
    requires i < |s| && s[i] == c
    requires forall k :: 0 <= k < i ==> s[k] != c
    ensures IndexOf(s, c) == i
  {
    if i > 0 { IndexOfFirst(s[1..], c, i - 1); }
  }

  lemma {:induction false} AllPlainNoSpace(a: string, d: string)
    requires AllPlain(a) && AllPlain(d)
    ensures NoSpace(a + ['@'] + d)
  {
    var s := a + ['@'] + d;
    forall k | 0 <= k < |s| ensures !IsSpace(s[k]) {
      if k < |a| { assert s[k] == a[k]; }
      else if |a| < k { assert s[k] == d[k - |a| - 1]; }
    }
  }

  /** An e-mail value assembled as the pattern reads it passes the checkable description. */
  lemma {:induction false} ValidEmailOfParts(a: string, b: string, c: string)
    requires a != [] && b != [] && c != []
    requires AllPlain(a) && AllPlain(b) && AllPlain(c)
    ensures IsValidEmail(a + ['@'] + (b + ['.'] + c))
  {
    var d := b + ['.'] + c;
    var s := a + ['@'] + d;
    assert AllPlain(['.']);
    AllPlainConcat(b, ['.']);
    AllPlainConcat(b + ['.'], c);
    AllPlainHasNoAt(a);
    AllPlainHasNoAt(d);
    assert multiset(s) == multiset(a) + multiset{'@'} + multiset(d);
    AllPlainNoSpace(a, d);
    IndexOfFirst(s, '@', |a|);
    assert s[|a| + 1..] == d;
    assert d[|b|] == '.';
  }

  lemma SplitTwice(s: string, i: nat, j: nat)
    requires i < j < |s|
    ensures s == s[..i] + [s[i]] + (s[i + 1..j] + [s[j]] + s[j + 1..])
  {
    assert s[i + 1..] == s[i + 1..j] + [s[j]] + s[j + 1..];
    assert s == s[..i] + [s[i]] + s[i + 1..];
  }

  /** Every string matching the pattern satisfies the checkable description. */
  lemma PatternMatchIsValidEmail(s: string)
    requires MatchesEmailPattern(s)
    ensures IsValidEmail(s)
  {
    var i, j :| && 0 < i && i + 1 < j && j + 1 < |s|
                && s[i] == '@' && s[j] == '.'
                && AllPlain(s[..i]) && AllPlain(s[i + 1..j]) && AllPlain(s[j + 1..]);
    SplitTwice(s, i, j);
    ValidEmailOfParts(s[..i], s[i + 1..j], s[j + 1..]);
  }

  /** The checkable description and the pattern accept the same strings. */
  lemma EmailDescriptionMatchesPattern(s: string)
    ensures IsValidEmail(s) <==> MatchesEmailPattern(s)
  {
    if IsValidEmail(s) { ValidEmailMatchesPattern(s); }
    if MatchesEmailPattern(s) { PatternMatchIsValidEmail(s); }
  }

  // ---------------------------------------------------------------- name

  /** The name rule: at least two UTF-16 code units once trimmed. */
  predicate IsLongEnoughName(s: string)
  {
    Utf16Length(s) >= 2
  }

  /** The name rule in characters: two or more, or a single one outside the
      Basic Multilingual Plane, which `length` counts as two code units. */
  lemma LongEnoughNameIff(s: string)
    ensures IsLongEnoughName(s) <==> |s| >= 2 || (|s| == 1 && s[0] as int >= 0x1_0000)
  {
    if |s| == 1 {
      assert Utf16Length(s) == CodeUnits(s[0]);
    }
  }
}
