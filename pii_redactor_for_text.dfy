/**
 * Redaction of personal details inside free text: UK postcodes, then email
 * addresses, then digit runs are replaced by fixed labels, and the number of
 * replacements is counted.
 */
module PiiRedactorForText {
  import opened Php
  import opened Regex

  /** `[a-zA-Z0-9_+.-]`. */
  const EmailLocal: CharClass := Class(c => IsLetter(c) || IsDigit(c) || c == '_' || c == '+' || c == '.' || c == '-')
  const At: CharClass := Class(c => c == '@')
  /** `[a-zA-Z0-9-]`. */
  const EmailDomain: CharClass := Class(c => IsLetter(c) || IsDigit(c) || c == '-')
  /** `[a-zA-Z0-9-.]`: the hyphen that follows a range is a literal. */
  const EmailTail: CharClass := Class(c => IsLetter(c) || IsDigit(c) || c == '-' || c == '.')

  /** `[a-zA-Z0-9_+.-]+@[a-zA-Z0-9-]+.[a-zA-Z0-9-.]+`: its middle `.` is unescaped and takes any byte but "\n". */
  const EmailPattern: Pattern := [
    Item(EmailLocal, 1, None), Item(At, 1, Some(1)), Item(EmailDomain, 1, None),
    Item(NotNewline, 1, Some(1)), Item(EmailTail, 1, None)]

  /** `\d+`. */
  const NumberPattern: Pattern := [Item(Digit, 1, None)]

  const PostcodeLabel: string := "REDACTED_POSTCODE"
  const EmailLabel: string := "REDACTED_EMAIL"
  const NumberLabel: string := "REDACTED_NUMBER"

  /** The redacted text and the number of replacements made. */
  datatype Redaction = Redaction(text: string, count: nat)

  function RedactPostcodes(text: string): Redaction
  {
    var r := ReplaceAll(PostcodePattern, PostcodeLabel, text);
    Redaction(r.0, r.1)
  }

  function RedactEmails(text: string): Redaction
  {
    var r := ReplaceAll(EmailPattern, EmailLabel, text);
    Redaction(r.0, r.1)
  }

  function RedactNumbers(text: string): Redaction
  {
    var r := ReplaceAll(NumberPattern, NumberLabel, text);
    Redaction(r.0, r.1)
  }

  /** Postcodes first, then emails in what is left, then numbers; the counts add up. */
  function Redact(text: string): Redaction
  {
    var postcodes := RedactPostcodes(text);
    var emails := RedactEmails(postcodes.text);
    var numbers := RedactNumbers(emails.text);
    Redaction(numbers.text, postcodes.count + emails.count + numbers.count)
  }

  predicate NoDigit(s: string)
  {
    forall i :: 0 <= i < |s| ==> !IsDigit(s[i])
  }

  // ---------------------------------------------------------------------
  // The number pass, described without the matcher

  /**
   * `s` with every maximal run of digits replaced by the number label;
   * `inRun` says whether the character before `s` was a digit.
   */
  function DigitRunsReplaced(s: string, inRun: bool): string
  {
    if s == [] then []
    else if IsDigit(s[0]) then (if inRun then [] else NumberLabel) + DigitRunsReplaced(s[1..], true)
    else [s[0]] + DigitRunsReplaced(s[1..], false)
  }

  /** The number of positions where a digit follows a non-digit or the start. */
  function DigitRunCount(s: string, inRun: bool): nat
  {
    if s == [] then 0
    else if IsDigit(s[0]) then (if inRun then 0 else 1) + DigitRunCount(s[1..], true)
    else DigitRunCount(s[1..], false)
  }

  lemma {:induction false} SkipDigitRun(s: string, n: nat)
    requires n <= |s| && AllDigits(s[..n])
    ensures DigitRunsReplaced(s, true) == DigitRunsReplaced(s[n..], true)
    ensures DigitRunCount(s, true) == DigitRunCount(s[n..], true)
    decreases n
  {
    if n > 0 {
      assert IsDigit(s[..n][0]);
      assert s[1..][..n - 1] == s[1..n];
      SkipDigitRun(s[1..], n - 1);
      assert s[1..][n - 1..] == s[n..];
    }
  }

  lemma RunEndsAtNonDigit(s: string)
    requires s == [] || !IsDigit(s[0])
    ensures DigitRunsReplaced(s, true) == DigitRunsReplaced(s, false)
    ensures DigitRunCount(s, true) == DigitRunCount(s, false)
  {
  }

  /** The number pass matches the digit runs: `\d+` is greedy, so every match is a whole run. */
  lemma NumberMatchIsRun(s: string)
    requires s != []
    ensures IsDigit(s[0]) ==> MatchLength(NumberPattern, s, Anywhere) == Some(Run(Digit, s, 0))
    ensures !IsDigit(s[0]) ==> MatchLength(NumberPattern, s, Anywhere).None?
  {
    var p := NumberPattern;
    var a := Avail(p[0], s, 0);
    assert a == Run(Digit, s, 0);
    if IsDigit(s[0]) {
      assert p[1..] == [];
      assert Match(p[1..], s, a, Anywhere) == Some([]);
      assert Try(p, s, 0, Anywhere, a) == Some([a] + []);
      assert Sum([a] + []) == a;
    }
  }

  /**
   * The number pass replaces each maximal digit run by the label and counts
   * one replacement per run.
   */
  lemma {:induction false} RedactNumbersIsRunReplacement(s: string)
    ensures RedactNumbers(s) == Redaction(DigitRunsReplaced(s, false), DigitRunCount(s, false))
    decreases |s|
  {
    if s != [] {
      NumberMatchIsRun(s);
      if IsDigit(s[0]) {
        var n := Run(Digit, s, 0);
        assert AllDigits(s[1..n]) by {
          forall j | 0 <= j < n - 1 ensures IsDigit(s[1..n][j]) {
            assert In(Digit, s[j + 1]);
          }
        }
        assert s[1..][..n - 1] == s[1..n];
        SkipDigitRun(s[1..], n - 1);
        assert s[1..][n - 1..] == s[n..];
        assert n < |s| ==> !In(Digit, s[n]);
        RunEndsAtNonDigit(s[n..]);
        RedactNumbersIsRunReplacement(s[n..]);
      } else {
        RedactNumbersIsRunReplacement(s[1..]);
      }
    }
  }

  lemma {:induction false} DigitRunsReplacedHasNoDigit(s: string, inRun: bool)
    ensures NoDigit(DigitRunsReplaced(s, inRun))
    decreases |s|
  {
    if s != [] {
      DigitRunsReplacedHasNoDigit(s[1..], IsDigit(s[0]));
      assert NoDigit(NumberLabel);
    }
  }

  /** A text holds a digit exactly when the number pass replaces something. */
  lemma {:induction false} DigitRunCountPositive(s: string)
    ensures DigitRunCount(s, false) > 0 <==> !NoDigit(s)
    decreases |s|
  {
    if s != [] {
      if IsDigit(s[0]) {
      } else {
        DigitRunCountPositive(s[1..]);
        assert NoDigit(s) <==> NoDigit(s[1..]) by {
          forall i | 0 <= i < |s| - 1 ensures s[1..][i] == s[i + 1] {}
        }
      }
    }
  }

  /** After `Redact` no ASCII digit is left in the text. */
  lemma RedactLeavesNoDigit(text: string)
    ensures NoDigit(Redact(text).text)
  {
    var emails := RedactEmails(RedactPostcodes(text).text);
    RedactNumbersIsRunReplacement(emails.text);
    DigitRunsReplacedHasNoDigit(emails.text, false);
  }

  /** When no pass replaces anything, the text comes back unchanged. */
  lemma RedactZeroCountUnchanged(text: string)
    ensures Redact(text).count == 0 ==> Redact(text).text == text
  {
    PatternLengths();
    assert MinLength(NumberPattern) == 1;
    var postcodes := RedactPostcodes(text);
    var emails := RedactEmails(postcodes.text);
    ReplaceAllNone(PostcodePattern, PostcodeLabel, text);
    ReplaceAllNone(EmailPattern, EmailLabel, postcodes.text);
    ReplaceAllNone(NumberPattern, NumberLabel, emails.text);
  }

  // ---------------------------------------------------------------------
  // Texts the postcode and email passes leave alone

  /** Every postcode holds a digit: a text without one keeps its postcode pass a no-op. */
  lemma NoDigitNoPostcode(text: string)
    requires NoDigit(text)
    ensures RedactPostcodes(text) == Redaction(text, 0)
  {
    ReplaceAllMissingClass(PostcodePattern, PostcodeLabel, text, 1);
  }

  /** Every email match holds an `@`. */
  lemma NoAtNoEmail(text: string)
    requires forall i :: 0 <= i < |text| ==> text[i] != '@'
    ensures RedactEmails(text) == Redaction(text, 0)
  {
    ReplaceAllMissingClass(EmailPattern, EmailLabel, text, 1);
  }

  lemma PatternLengths()
    ensures MinLength(PostcodePattern) == 5 && MinLength(EmailPattern) == 5
  {
    var p := PostcodePattern;
    assert MinLength(p[5..]) == 2;
    assert MinLength(p[4..]) == 3;
    assert MinLength(p[3..]) == 3;
    assert MinLength(p[2..]) == 3;
    assert MinLength(p[1..]) == 4;
    var q := EmailPattern;
    assert MinLength(q[4..]) == 1;
    assert MinLength(q[3..]) == 2;
    assert MinLength(q[2..]) == 3;
    assert MinLength(q[1..]) == 4;
  }

  /** A postcode match is at least five characters long and an email match at least five. */
  lemma ShortTexts(text: string)
    requires |text| < 5
    ensures RedactPostcodes(text) == Redaction(text, 0)
    ensures RedactEmails(text) == Redaction(text, 0)
  {
    assert MinLength(PostcodePattern) == 5 by { PatternLengths(); }
    assert MinLength(EmailPattern) == 5 by { PatternLengths(); }
    ReplaceAllShort(PostcodePattern, PostcodeLabel, text);
    ReplaceAllShort(EmailPattern, EmailLabel, text);
  }

  /** A text without digits passes the number pass unchanged. */
  lemma {:induction false} NoDigitNoNumber(s: string)
    requires NoDigit(s)
    ensures RedactNumbers(s) == Redaction(s, 0)
    decreases |s|
  {
    RedactNumbersIsRunReplacement(s);
    DigitRunCountPositive(s);
    NoDigitUnchanged(s);
  }

  lemma {:induction false} NoDigitUnchanged(s: string)
    requires NoDigit(s)
    ensures DigitRunsReplaced(s, false) == s
    decreases |s|
  {
    if s != [] {
      assert !IsDigit(s[0]);
      assert NoDigit(s[1..]) by {
        forall i | 0 <= i < |s| - 1 ensures !IsDigit(s[1..][i]) { assert s[1..][i] == s[i + 1]; }
      }
      NoDigitUnchanged(s[1..]);
    }
  }

  /**
   * `Redact` is not idempotent: redacting `a@1` yields `a@REDACTED_NUMBER`,
   * and redacting that again finds an email address in it, because the
   * unescaped `.` of the email pattern takes the label's underscore.
   */
  lemma RedactIsNotIdempotent()
    ensures Redact("a@1") == Redaction("a@" + NumberLabel, 1)
    ensures Redact(Redact("a@1").text) == Redaction(EmailLabel, 1)
  {
    RedactDigitAfterAt();
    RedactLabelAfterAt();
  }

  lemma RedactDigitAfterAt()
    ensures Redact("a@1") == Redaction("a@" + NumberLabel, 1)
  {
    ShortTexts("a@1");
    assert RedactPostcodes("a@1") == Redaction("a@1", 0);
    assert RedactEmails("a@1") == Redaction("a@1", 0);
    NumbersOfDigitAfterAt();
  }

  lemma NumbersOfDigitAfterAt()
    ensures RedactNumbers("a@1") == Redaction("a@" + NumberLabel, 1)
  {
    RedactNumbersIsRunReplacement("a@1");
    assert "a@1"[1..] == "@1";
    assert "@1"[1..] == "1";
  }

  lemma RedactLabelAfterAt()
    ensures Redact("a@" + NumberLabel) == Redaction(EmailLabel, 1)
  {
    var s := "a@" + NumberLabel;
    PostcodesOfLabelAfterAt();
    EmailsOfLabelAfterAt();
    NumbersOfEmailLabel();
  }

  lemma PostcodesOfLabelAfterAt()
    ensures RedactPostcodes("a@" + NumberLabel) == Redaction("a@" + NumberLabel, 0)
  {
    assert NoDigit("a@");
    assert NoDigit(NumberLabel);
    NoDigitNoPostcode("a@" + NumberLabel);
  }

  lemma NumbersOfEmailLabel()
    ensures RedactNumbers(EmailLabel) == Redaction(EmailLabel, 0)
  {
    assert NoDigit(EmailLabel);
    NoDigitNoNumber(EmailLabel);
  }

  lemma EmailsOfLabelAfterAt()
    ensures RedactEmails("a@" + NumberLabel) == Redaction(EmailLabel, 1)
  {
    var s := "a@" + NumberLabel;
    EmailMatchesAll(s);
    assert s[|s|..] == [];
    assert ReplaceAll(EmailPattern, EmailLabel, s) == (EmailLabel + "", 1);
    assert EmailLabel + "" == EmailLabel;
  }

  lemma RunsOfLabelAfterAt(s: string)
    requires s == "a@" + NumberLabel
    ensures |s| == 17
    ensures Run(EmailLocal, s, 0) == 1 && Run(At, s, 1) == 1 && Run(EmailDomain, s, 2) == 8
    ensures Run(NotNewline, s, 10) >= 1 && Run(EmailTail, s, 11) == 6
  {
    assert s[1] == '@' && s[10] == '_';
    RunExact(EmailLocal, s, 0, 1);
    RunExact(At, s, 1, 1);
    RunExact(EmailDomain, s, 2, 8);
    RunExact(EmailTail, s, 11, 6);
  }

  lemma EmailMatchesAll(s: string)
    requires s == "a@" + NumberLabel
    ensures MatchLength(EmailPattern, s, Anywhere) == Some(|s|)
  {
    RunsOfLabelAfterAt(s);
    EmailMatchFromRuns(s);
  }

  lemma EmailTailFromRuns(s: string)
    requires |s| == 17
    requires Run(EmailDomain, s, 2) == 8 && Run(NotNewline, s, 10) >= 1 && Run(EmailTail, s, 11) == 6
    ensures Match(EmailPattern[2..], s, 2, Anywhere) == Some([8, 1, 6])
  {
    var p := EmailPattern;
    assert Avail(p[3], s, 10) == 1;
    assert p[4..][1..] == [];
    MatchGreedyStep(p[4..], s, 11, Anywhere, []);
    assert [6] + [] == [6];
    assert p[3..][1..] == p[4..];
    MatchGreedyStep(p[3..], s, 10, Anywhere, [6]);
    assert [1] + [6] == [1, 6];
    assert p[2..][1..] == p[3..];
    MatchGreedyStep(p[2..], s, 2, Anywhere, [1, 6]);
    assert [8] + [1, 6] == [8, 1, 6];
  }

  lemma EmailMatchFromRuns(s: string)
    requires |s| == 17
    requires Run(EmailLocal, s, 0) == 1 && Run(At, s, 1) == 1 && Run(EmailDomain, s, 2) == 8
    requires Run(NotNewline, s, 10) >= 1 && Run(EmailTail, s, 11) == 6
    ensures MatchLength(EmailPattern, s, Anywhere) == Some(|s|)
  {
    var p := EmailPattern;
    EmailTailFromRuns(s);
    assert p[1..][1..] == p[2..];
    MatchGreedyStep(p[1..], s, 1, Anywhere, [8, 1, 6]);
    assert [1] + [8, 1, 6] == [1, 8, 1, 6];
    MatchGreedyStep(p, s, 0, Anywhere, [1, 8, 1, 6]);
    assert [1] + [1, 8, 1, 6] == [1, 1, 8, 1, 6];
    assert Sum([1, 1, 8, 1, 6]) == 17;
  }
}
