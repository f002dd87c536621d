/**
 * The redactor on the two texts of its unit test: the sample with two
 * email addresses, a postcode and five digit runs gets eight replacements,
 * and the sentence about `preg_replace()` gets none.  Each pass is followed
 * piece by piece through the text: a piece where no match can start is
 * kept, a piece that is exactly one match is replaced.
 */
module PiiRedactorForTextExamples {
  import opened Php
  import opened Regex
  import opened PiiRedactorForText

  predicate NoLetter(s: string)
  {
    forall i :: 0 <= i < |s| ==> !IsLetter(s[i])
  }

  predicate NoAt(s: string)
  {
    forall i :: 0 <= i < |s| ==> s[i] != '@'
  }

  // ---------------------------------------------------------------------
  // Where a match can start

  /** A postcode starts with a letter, followed by a digit or by a letter and a digit. */
  lemma PostcodeStart(s: string, i: nat)
    ensures MatchesAt(PostcodePattern, s, i) ==>
      IsLetter(s[i]) && i + 1 < |s| && (IsDigit(s[i + 1]) || (IsLetter(s[i + 1]) && i + 2 < |s| && IsDigit(s[i + 2])))
  {
    if MatchesAt(PostcodePattern, s, i) {
      var p := PostcodePattern;
      var t := s[i..];
      MatchSound(p, t, 0, Anywhere);
      var cs := Match(p, t, 0, Anywhere).value;
      assert Fits(p[1..], t, cs[0], Anywhere, cs[1..]);
      assert p[1..][0] == Item(Digit, 1, Some(1));
      assert RunOf(Letter, t, 0, cs[0]) && 1 <= cs[0] <= 2;
      assert RunOf(Digit, t, cs[0], cs[1..][0]) && cs[1..][0] >= 1;
      assert t[0] == s[i] && t[cs[0]] == s[i + cs[0]];
      if cs[0] == 2 {
        assert t[1] == s[i + 1];
      }
    }
  }

  /** No postcode starts inside a piece without letters, or without digits and not ending in a letter. */
  predicate PostcodeCannotStartIn(a: string)
  {
    NoLetter(a) || (a != [] && NoDigit(a) && !IsLetter(a[|a| - 1]))
  }

  lemma PostcodeKeeps(a: string, b: string)
    requires PostcodeCannotStartIn(a)
    ensures RedactPostcodes(a + b) == Redaction(a + RedactPostcodes(b).text, RedactPostcodes(b).count)
  {
    forall i | 0 <= i < |a|
      ensures !MatchesAt(PostcodePattern, a + b, i)
    {
      PostcodeStart(a + b, i);
    }
    PatternLengths();
    ReplaceAllKeep(PostcodePattern, PostcodeLabel, a, b);
  }

  /** An email address starts with a run of local-part characters ended by an `@`. */
  lemma EmailStart(s: string, i: nat)
    ensures MatchesAt(EmailPattern, s, i) ==>
      exists c :: 1 <= c && i + c < |s| && RunOf(EmailLocal, s, i, c) && s[i + c] == '@'
  {
    if MatchesAt(EmailPattern, s, i) {
      var p := EmailPattern;
      var t := s[i..];
      MatchSound(p, t, 0, Anywhere);
      var cs := Match(p, t, 0, Anywhere).value;
      assert Fits(p[1..], t, cs[0], Anywhere, cs[1..]);
      assert p[1..][0] == Item(At, 1, Some(1));
      assert RunOf(EmailLocal, t, 0, cs[0]) && cs[0] >= 1;
      assert RunOf(At, t, cs[0], cs[1..][0]) && cs[1..][0] >= 1;
      assert t[cs[0]] == s[i + cs[0]];
      assert RunOf(EmailLocal, s, i, cs[0]) by {
        forall j | i <= j < i + cs[0] ensures In(EmailLocal, s[j]) {
          assert s[j] == t[j - i];
        }
      }
    }
  }

  /** No email address starts inside a piece without `@` that does not end in a local-part character. */
  predicate EmailCannotStartIn(a: string)
  {
    a != [] && NoAt(a) && !In(EmailLocal, a[|a| - 1])
  }

  lemma EmailKeeps(a: string, b: string)
    requires EmailCannotStartIn(a)
    ensures RedactEmails(a + b) == Redaction(a + RedactEmails(b).text, RedactEmails(b).count)
  {
    forall i | 0 <= i < |a|
      ensures !MatchesAt(EmailPattern, a + b, i)
    {
      EmailStart(a + b, i);
      forall c | 1 <= c && i + c < |a + b| && RunOf(EmailLocal, a + b, i, c)
        ensures (a + b)[i + c] != '@'
      {
        assert (a + b)[|a| - 1] == a[|a| - 1];
        if i + c < |a| {
          assert (a + b)[i + c] == a[i + c];
        }
      }
    }
    PatternLengths();
    ReplaceAllKeep(EmailPattern, EmailLabel, a, b);
  }

  /** A number starts with a digit. */
  lemma NumberKeeps(a: string, b: string)
    requires NoDigit(a)
    ensures RedactNumbers(a + b) == Redaction(a + RedactNumbers(b).text, RedactNumbers(b).count)
  {
    forall i | 0 <= i < |a|
      ensures !MatchesAt(NumberPattern, a + b, i)
    {
      MatchAtStart(NumberPattern, a + b, i);
    }
    ReplaceAllKeep(NumberPattern, NumberLabel, a, b);
  }

  // ---------------------------------------------------------------------
  // Matches that are exactly one piece

  /** The test's postcode is matched whole, whatever follows it. */
  lemma PostcodeHit(b: string)
    ensures RedactPostcodes("CR8 2XX" + b) == Redaction(PostcodeLabel + RedactPostcodes(b).text, RedactPostcodes(b).count + 1)
  {
    PostcodeHitAvail(b);
    PostcodeMatchOfAvail("CR8 2XX" + b);
    assert MinLength(PostcodePattern) > 0 by { PatternLengths(); }
    ReplaceAllHit(PostcodePattern, PostcodeLabel, "CR8 2XX", b);
  }

  lemma PostcodeHitAvail(b: string)
    ensures var s, p := "CR8 2XX" + b, PostcodePattern;
      7 <= |s| && Avail(p[0], s, 0) == 2 && Avail(p[1], s, 2) == 1 && Avail(p[2], s, 3) == 0 &&
      Avail(p[3], s, 3) == 1 && Avail(p[4], s, 4) == 1 && Avail(p[5], s, 5) == 2
  {
    var s := "CR8 2XX" + b;
    assert s[0] == 'C' && s[1] == 'R' && s[2] == '8' && s[3] == ' ' && s[4] == '2' && s[5] == 'X' && s[6] == 'X';
    RunExact(Letter, s, 0, 2);
    RunExact(Digit, s, 2, 1);
    RunExact(LetterOrDigit, s, 3, 0);
    RunExact(Space, s, 3, 1);
    RunExact(Digit, s, 4, 1);
    assert Run(Letter, s, 5) >= 2 by {
      assert Run(Letter, s, 5) == 1 + Run(Letter, s, 6);
      assert Run(Letter, s, 6) == 1 + Run(Letter, s, 7);
    }
  }

  /** The greedy counts 2, 1, 0, 1, 1, 2 make a postcode match seven characters long. */
  lemma PostcodeMatchOfAvail(s: string)
    requires var p := PostcodePattern;
      7 <= |s| && Avail(p[0], s, 0) == 2 && Avail(p[1], s, 2) == 1 && Avail(p[2], s, 3) == 0 &&
      Avail(p[3], s, 3) == 1 && Avail(p[4], s, 4) == 1 && Avail(p[5], s, 5) == 2
    ensures MatchLength(PostcodePattern, s, Anywhere) == Some(7)
  {
    var p := PostcodePattern;
    PostcodeEndOfAvail(s);
    MatchGreedyAt(p, 2, s, 3, Anywhere, [1] + ([1] + ([2] + [])));
    MatchGreedyAt(p, 1, s, 2, Anywhere, [0] + ([1] + ([1] + ([2] + []))));
    MatchGreedyAt(p, 0, s, 0, Anywhere, [1] + ([0] + ([1] + ([1] + ([2] + [])))));
    assert p[0..] == p;
    SumCons(2, []);
    SumCons(1, [2] + []);
    SumCons(1, [1] + ([2] + []));
    SumCons(0, [1] + ([1] + ([2] + [])));
    SumCons(1, [0] + ([1] + ([1] + ([2] + []))));
    SumCons(2, [1] + ([0] + ([1] + ([1] + ([2] + [])))));
  }

  lemma PostcodeEndOfAvail(s: string)
    requires var p := PostcodePattern;
      7 <= |s| && Avail(p[3], s, 3) == 1 && Avail(p[4], s, 4) == 1 && Avail(p[5], s, 5) == 2
    ensures Match(PostcodePattern[3..], s, 3, Anywhere) == Some([1] + ([1] + ([2] + [])))
  {
    var p := PostcodePattern;
    assert p[6..] == [];
    MatchGreedyAt(p, 5, s, 5, Anywhere, []);
    MatchGreedyAt(p, 4, s, 4, Anywhere, [2] + []);
    MatchGreedyAt(p, 3, s, 3, Anywhere, [1] + ([2] + []));
  }

  /**
   * An address made of `l` local-part characters, an `@`, `d` domain
   * characters, a separator and a tail is matched whole when the character
   * after it cannot extend the tail.
   */
  lemma EmailHit(m: string, b: string, l: nat, d: nat)
    requires 1 <= l && 1 <= d && l + d + 3 <= |m|
    requires forall j :: 0 <= j < l ==> In(EmailLocal, m[j])
    requires m[l] == '@'
    requires forall j :: l < j <= l + d ==> In(EmailDomain, m[j])
    requires !In(EmailDomain, m[l + d + 1]) && m[l + d + 1] != '\n'
    requires forall j :: l + d + 2 <= j < |m| ==> In(EmailTail, m[j])
    requires b == [] || !In(EmailTail, b[0])
    ensures RedactEmails(m + b) == Redaction(EmailLabel + RedactEmails(b).text, RedactEmails(b).count + 1)
  {
    EmailMatch(m, b, l, d);
    PatternLengths();
    ReplaceAllHit(EmailPattern, EmailLabel, m, b);
  }

  lemma EmailMatch(m: string, b: string, l: nat, d: nat)
    requires 1 <= l && 1 <= d && l + d + 3 <= |m|
    requires forall j :: 0 <= j < l ==> In(EmailLocal, m[j])
    requires m[l] == '@'
    requires forall j :: l < j <= l + d ==> In(EmailDomain, m[j])
    requires !In(EmailDomain, m[l + d + 1]) && m[l + d + 1] != '\n'
    requires forall j :: l + d + 2 <= j < |m| ==> In(EmailTail, m[j])
    requires b == [] || !In(EmailTail, b[0])
    ensures MatchLength(EmailPattern, m + b, Anywhere) == Some(|m|)
  {
    EmailRuns(m, b, l, d);
    EmailMatchOfRuns(m + b, l, d, |m| - l - d - 2);
  }

  lemma EmailRuns(m: string, b: string, l: nat, d: nat)
    requires 1 <= l && 1 <= d && l + d + 3 <= |m|
    requires forall j :: 0 <= j < l ==> In(EmailLocal, m[j])
    requires m[l] == '@'
    requires forall j :: l < j <= l + d ==> In(EmailDomain, m[j])
    requires !In(EmailDomain, m[l + d + 1]) && m[l + d + 1] != '\n'
    requires forall j :: l + d + 2 <= j < |m| ==> In(EmailTail, m[j])
    requires b == [] || !In(EmailTail, b[0])
    ensures var s := m + b;
      Run(EmailLocal, s, 0) == l && Run(At, s, l) == 1 && Run(EmailDomain, s, l + 1) == d &&
      Run(NotNewline, s, l + d + 1) >= 1 && Run(EmailTail, s, l + d + 2) == |m| - l - d - 2
  {
    var s := m + b;
    forall j | 0 <= j < |m| ensures s[j] == m[j] {}
    assert |m| == |s| || s[|m|] == b[0];
    RunExact(EmailLocal, s, 0, l);
    RunExact(At, s, l, 1);
    RunExact(EmailDomain, s, l + 1, d);
    RunExact(EmailTail, s, l + d + 2, |m| - l - d - 2);
  }

  /** Runs of local part, `@`, domain, separator and tail give a match over all of them. */
  lemma EmailMatchOfRuns(s: string, l: nat, d: nat, t: nat)
    requires 1 <= l && 1 <= d && 1 <= t && l + d + t + 2 <= |s|
    requires Run(EmailLocal, s, 0) == l && Run(At, s, l) == 1 && Run(EmailDomain, s, l + 1) == d
    requires Run(NotNewline, s, l + d + 1) >= 1 && Run(EmailTail, s, l + d + 2) == t
    ensures MatchLength(EmailPattern, s, Anywhere) == Some(l + d + t + 2)
  {
    EmailCountsOfRuns(s, l, d, t);
    SumCons(t, []);
    SumCons(1, [t] + []);
    SumCons(d, [1] + ([t] + []));
    SumCons(1, [d] + ([1] + ([t] + [])));
    SumCons(l, [1] + ([d] + ([1] + ([t] + []))));
  }

  lemma EmailCountsOfRuns(s: string, l: nat, d: nat, t: nat)
    requires 1 <= l && 1 <= d && 1 <= t && l + d + t + 2 <= |s|
    requires Run(EmailLocal, s, 0) == l && Run(At, s, l) == 1 && Run(EmailDomain, s, l + 1) == d
    requires Run(NotNewline, s, l + d + 1) >= 1 && Run(EmailTail, s, l + d + 2) == t
    ensures Match(EmailPattern, s, 0, Anywhere) == Some([l] + ([1] + ([d] + ([1] + ([t] + [])))))
  {
    var p := EmailPattern;
    EmailDomainOfRuns(s, l + 1, d, t);
    MatchGreedyAt(p, 1, s, l, Anywhere, [d] + ([1] + ([t] + [])));
    MatchGreedyAt(p, 0, s, 0, Anywhere, [1] + ([d] + ([1] + ([t] + []))));
    assert p[0..] == p;
  }

  lemma EmailDomainOfRuns(s: string, pos: nat, d: nat, t: nat)
    requires 1 <= d && 1 <= t && pos + d + t + 1 <= |s|
    requires Run(EmailDomain, s, pos) == d && Run(NotNewline, s, pos + d) >= 1 && Run(EmailTail, s, pos + d + 1) == t
    ensures Match(EmailPattern[2..], s, pos, Anywhere) == Some([d] + ([1] + ([t] + [])))
  {
    var p := EmailPattern;
    assert p[5..] == [];
    MatchGreedyAt(p, 4, s, pos + d + 1, Anywhere, []);
    MatchGreedyAt(p, 3, s, pos + d, Anywhere, [t] + []);
    MatchGreedyAt(p, 2, s, pos, Anywhere, [1] + ([t] + []));
  }

  /** A run of digits followed by a non-digit is one number. */
  lemma NumberHit(m: string, b: string)
    requires m != [] && AllDigits(m) && (b == [] || !IsDigit(b[0]))
    ensures RedactNumbers(m + b) == Redaction(NumberLabel + RedactNumbers(b).text, RedactNumbers(b).count + 1)
  {
    NumberMatchIsRun(m + b);
    RunExact(Digit, m + b, 0, |m|);
    ReplaceAllHit(NumberPattern, NumberLabel, m, b);
  }

  lemma NoAtAppend(a: string, b: string)
    requires NoAt(a) && NoAt(b)
    ensures NoAt(a + b)
  {
    forall i | 0 <= i < |a + b|
      ensures (a + b)[i] != '@'
    {
      if i >= |a| {
        assert (a + b)[i] == b[i - |a|];
      }
    }
  }

  // ---------------------------------------------------------------------
  // The unit test's first text

  /** The first text of the unit test, in the pieces the passes below follow. */
  const SampleText: string :=
    "My email address is " + "foo+bar@example.net." + "\n  Also reachable at " + "qux@example.net." +
    "  My address is " + "7" + " Example road, " + "CR8 2XX" +
    ".\n  I was born on " + "2001" + "-" + "01" + "-" + "01" + ".\n  I have " + "5" + " cats."

  /** The same text after `Redact`: two emails, one postcode and five numbers replaced. */
  const SampleRedacted: string :=
    "My email address is " + EmailLabel + "\n  Also reachable at " + EmailLabel +
    "  My address is " + NumberLabel + " Example road, " + PostcodeLabel +
    ".\n  I was born on " + NumberLabel + "-" + NumberLabel + "-" + NumberLabel + ".\n  I have " + NumberLabel + " cats."

  /** The unit test's first case: eight replacements, and the text they leave. */
  lemma RedactSampleText()
    ensures Redact(SampleText) == Redaction(SampleRedacted, 8)
  {
    var tail := " cats.";
    DigitlessLabels();
    AtlessPiecesB();
    NoDigitNoPostcode(tail);
    NoDigitNoNumber(tail);
    SamplePostcodes(tail);
    SampleEmails(tail);
    SampleNumbers(tail);
  }

  /** The postcode pass replaces `CR8 2XX` and nothing else before the last piece `b`. */
  lemma SamplePostcodes(b: string)
    ensures RedactPostcodes(
      "My email address is " + "foo+bar@example.net." + "\n  Also reachable at " + "qux@example.net." +
      "  My address is " + "7" + " Example road, " + "CR8 2XX" +
      ".\n  I was born on " + "2001" + "-" + "01" + "-" + "01" + ".\n  I have " + "5" + b)
    == Redaction(
      "My email address is " + "foo+bar@example.net." + "\n  Also reachable at " + "qux@example.net." +
      "  My address is " + "7" + " Example road, " + PostcodeLabel +
      ".\n  I was born on " + "2001" + "-" + "01" + "-" + "01" + ".\n  I have " + "5" + RedactPostcodes(b).text,
      RedactPostcodes(b).count + 1)
  {
    var t15 := "5" + b;
    var t14 := ".\n  I have " + t15;
    var t13 := "01" + t14;
    var t12 := "-" + t13;
    var t11 := "01" + t12;
    var t10 := "-" + t11;
    var t9 := "2001" + t10;
    var t8 := ".\n  I was born on " + t9;
    var t7 := "CR8 2XX" + t8;
    var t6 := " Example road, " + t7;
    var t5 := "7" + t6;
    var t4 := "  My address is " + t5;
    var t3 := "qux@example.net." + t4;
    var t2 := "\n  Also reachable at " + t3;
    var t1 := "foo+bar@example.net." + t2;
    DigitlessPiecesA();
    DigitlessPiecesB();
    DigitlessLabels();
    DigitOnlyPieces();
    PostcodeKeeps("5", b);
    PostcodeKeeps(".\n  I have ", t15);
    PostcodeKeeps("01", t14);
    PostcodeKeeps("-", t13);
    PostcodeKeeps("01", t12);
    PostcodeKeeps("-", t11);
    PostcodeKeeps("2001", t10);
    PostcodeKeeps(".\n  I was born on ", t9);
    PostcodeHit(t8);
    PostcodeKeeps(" Example road, ", t7);
    PostcodeKeeps("7", t6);
    PostcodeKeeps("  My address is ", t5);
    PostcodeKeeps("qux@example.net.", t4);
    PostcodeKeeps("\n  Also reachable at ", t3);
    PostcodeKeeps("foo+bar@example.net.", t2);
    PostcodeKeeps("My email address is ", t1);
    Nested("My email address is ", "foo+bar@example.net.", "\n  Also reachable at ", "qux@example.net.",
      "  My address is ", "7", " Example road, ", "CR8 2XX",
      ".\n  I was born on ", "2001", "-", "01", "-", "01", ".\n  I have ", "5", b);
    Nested("My email address is ", "foo+bar@example.net.", "\n  Also reachable at ", "qux@example.net.",
      "  My address is ", "7", " Example road, ", PostcodeLabel,
      ".\n  I was born on ", "2001", "-", "01", "-", "01", ".\n  I have ", "5", RedactPostcodes(b).text);
  }

  /** The email pass then replaces both addresses, when the last piece `b` holds no `@`. */
  lemma SampleEmails(b: string)
    requires NoAt(b)
    ensures RedactEmails(
      "My email address is " + "foo+bar@example.net." + "\n  Also reachable at " + "qux@example.net." +
      "  My address is " + "7" + " Example road, " + PostcodeLabel +
      ".\n  I was born on " + "2001" + "-" + "01" + "-" + "01" + ".\n  I have " + "5" + b)
    == Redaction(
      "My email address is " + EmailLabel + "\n  Also reachable at " + EmailLabel +
      "  My address is " + "7" + " Example road, " + PostcodeLabel +
      ".\n  I was born on " + "2001" + "-" + "01" + "-" + "01" + ".\n  I have " + "5" + b,
      2)
  {
    var t15 := "5" + b;
    var t14 := ".\n  I have " + t15;
    var t13 := "01" + t14;
    var t12 := "-" + t13;
    var t11 := "01" + t12;
    var t10 := "-" + t11;
    var t9 := "2001" + t10;
    var t8 := ".\n  I was born on " + t9;
    var t7 := PostcodeLabel + t8;
    var t6 := " Example road, " + t7;
    var t5 := "7" + t6;
    var t4 := "  My address is " + t5;
    var t3 := "qux@example.net." + t4;
    var t2 := "\n  Also reachable at " + t3;
    var t1 := "foo+bar@example.net." + t2;
    SampleEndNoAt(b);
    NoAtNoEmail(t4);
    AtlessPiecesA();
    SampleSecondAddress(t4);
    EmailKeeps("\n  Also reachable at ", t3);
    SampleFirstAddress(t2);
    EmailKeeps("My email address is ", t1);
    Nested("My email address is ", "foo+bar@example.net.", "\n  Also reachable at ", "qux@example.net.",
      "  My address is ", "7", " Example road, ", PostcodeLabel,
      ".\n  I was born on ", "2001", "-", "01", "-", "01", ".\n  I have ", "5", b);
    Nested("My email address is ", EmailLabel, "\n  Also reachable at ", EmailLabel,
      "  My address is ", "7", " Example road, ", PostcodeLabel,
      ".\n  I was born on ", "2001", "-", "01", "-", "01", ".\n  I have ", "5", b);
  }

  /** The number pass then replaces the five digit runs, when the last piece `b` starts with a non-digit. */
  lemma SampleNumbers(b: string)
    requires b != [] && !IsDigit(b[0])
    ensures RedactNumbers(
      "My email address is " + EmailLabel + "\n  Also reachable at " + EmailLabel +
      "  My address is " + "7" + " Example road, " + PostcodeLabel +
      ".\n  I was born on " + "2001" + "-" + "01" + "-" + "01" + ".\n  I have " + "5" + b)
    == Redaction(
      "My email address is " + EmailLabel + "\n  Also reachable at " + EmailLabel +
      "  My address is " + NumberLabel + " Example road, " + PostcodeLabel +
      ".\n  I was born on " + NumberLabel + "-" + NumberLabel + "-" + NumberLabel + ".\n  I have " + NumberLabel +
      RedactNumbers(b).text,
      RedactNumbers(b).count + 5)
  {
    var t15 := "5" + b;
    var t14 := ".\n  I have " + t15;
    var t13 := "01" + t14;
    var t12 := "-" + t13;
    var t11 := "01" + t12;
    var t10 := "-" + t11;
    var t9 := "2001" + t10;
    var t8 := ".\n  I was born on " + t9;
    var t7 := PostcodeLabel + t8;
    var t6 := " Example road, " + t7;
    var t5 := "7" + t6;
    var t4 := "  My address is " + t5;
    var t3 := EmailLabel + t4;
    var t2 := "\n  Also reachable at " + t3;
    var t1 := EmailLabel + t2;
    DigitlessPiecesA();
    DigitlessPiecesB();
    DigitlessLabels();
    DigitOnlyPieces();
    NumberHit("5", b);
    NumberKeeps(".\n  I have ", t15);
    NumberHit("01", t14);
    NumberKeeps("-", t13);
    NumberHit("01", t12);
    NumberKeeps("-", t11);
    NumberHit("2001", t10);
    NumberKeeps(".\n  I was born on ", t9);
    NumberKeeps(PostcodeLabel, t8);
    NumberKeeps(" Example road, ", t7);
    NumberHit("7", t6);
    NumberKeeps("  My address is ", t5);
    NumberKeeps(EmailLabel, t4);
    NumberKeeps("\n  Also reachable at ", t3);
    NumberKeeps(EmailLabel, t2);
    NumberKeeps("My email address is ", t1);
    Nested("My email address is ", EmailLabel, "\n  Also reachable at ", EmailLabel,
      "  My address is ", "7", " Example road, ", PostcodeLabel,
      ".\n  I was born on ", "2001", "-", "01", "-", "01", ".\n  I have ", "5", b);
    Nested("My email address is ", EmailLabel, "\n  Also reachable at ", EmailLabel,
      "  My address is ", NumberLabel, " Example road, ", PostcodeLabel,
      ".\n  I was born on ", NumberLabel, "-", NumberLabel, "-", NumberLabel, ".\n  I have ", NumberLabel,
      RedactNumbers(b).text);
  }

  lemma SampleFirstAddress(b: string)
    requires b == [] || !In(EmailTail, b[0])
    ensures RedactEmails("foo+bar@example.net." + b) == Redaction(EmailLabel + RedactEmails(b).text, RedactEmails(b).count + 1)
  {
    EmailHit("foo+bar@example.net.", b, 7, 7);
  }

  lemma SampleSecondAddress(b: string)
    requires b == [] || !In(EmailTail, b[0])
    ensures RedactEmails("qux@example.net." + b) == Redaction(EmailLabel + RedactEmails(b).text, RedactEmails(b).count + 1)
  {
    EmailHit("qux@example.net.", b, 3, 7);
  }

  /** What follows the second address holds no `@` when the last piece holds none. */
  lemma SampleEndNoAt(b: string)
    requires NoAt(b)
    ensures NoAt("  My address is " + ("7" + (" Example road, " + (PostcodeLabel + (".\n  I was born on " +
      ("2001" + ("-" + ("01" + ("-" + ("01" + (".\n  I have " + ("5" + b))))))))))))
  {
    var t15 := "5" + b;
    var t14 := ".\n  I have " + t15;
    var t13 := "01" + t14;
    var t12 := "-" + t13;
    var t11 := "01" + t12;
    var t10 := "-" + t11;
    var t9 := "2001" + t10;
    var t8 := ".\n  I was born on " + t9;
    var t7 := PostcodeLabel + t8;
    var t6 := " Example road, " + t7;
    var t5 := "7" + t6;
    AtlessPiecesA();
    AtlessPiecesB();
    NoAtAppend("5", b);
    NoAtAppend(".\n  I have ", t15);
    NoAtAppend("01", t14);
    NoAtAppend("-", t13);
    NoAtAppend("01", t12);
    NoAtAppend("-", t11);
    NoAtAppend("2001", t10);
    NoAtAppend(".\n  I was born on ", t9);
    NoAtAppend(PostcodeLabel, t8);
    NoAtAppend(" Example road, ", t7);
    NoAtAppend("7", t6);
    NoAtAppend("  My address is ", t5);
  }

  /** Sixteen pieces and a tail, concatenated from the left, are the same text nested from the right. */
  lemma Nested(x0: string, x1: string, x2: string, x3: string, x4: string, x5: string, x6: string, x7: string,
               x8: string, x9: string, x10: string, x11: string, x12: string, x13: string, x14: string, x15: string,
               b: string)
    ensures x0 + x1 + x2 + x3 + x4 + x5 + x6 + x7 + x8 + x9 + x10 + x11 + x12 + x13 + x14 + x15 + b
         == x0 + (x1 + (x2 + (x3 + (x4 + (x5 + (x6 + (x7 + (x8 + (x9 + (x10 + (x11 + (x12 + (x13 + (x14 + (x15 + b)))))))))))))))
  {
  }

  // The pieces' characters, checked once

  lemma DigitlessPiecesA()
    ensures NoDigit("My email address is ") && NoDigit("foo+bar@example.net.")
    ensures NoDigit("\n  Also reachable at ") && NoDigit("qux@example.net.")
  {
  }

  lemma DigitlessPiecesB()
    ensures NoDigit("  My address is ") && NoDigit(" Example road, ")
    ensures NoDigit(".\n  I was born on ") && NoDigit(".\n  I have ")
  {
  }

  lemma DigitlessLabels()
    ensures NoDigit(EmailLabel) && NoDigit(PostcodeLabel) && NoDigit("-") && NoDigit(" cats.")
  {
  }

  lemma DigitOnlyPieces()
    ensures AllDigits("7") && AllDigits("2001") && AllDigits("01") && AllDigits("5")
    ensures NoLetter("7") && NoLetter("2001") && NoLetter("01") && NoLetter("5")
  {
  }

  lemma AtlessPiecesA()
    ensures NoAt("My email address is ") && NoAt("\n  Also reachable at ")
    ensures NoAt("  My address is ") && NoAt(" Example road, ")
  {
  }

  lemma AtlessPiecesB()
    ensures NoAt(PostcodeLabel) && NoAt(".\n  I was born on ") && NoAt(".\n  I have ") && NoAt(" cats.")
    ensures NoAt("7") && NoAt("2001") && NoAt("01") && NoAt("5") && NoAt("-")
  {
  }

  // ---------------------------------------------------------------------
  // The unit test's second text

  /** The second text of the unit test: no digit and no `@`. */
  const PlainText: string := "preg_replace() " + "performs a regex " + "search and replace."

  /** The unit test's second case: no replacement, and the text comes back as it was. */
  lemma RedactPlainText()
    ensures Redact(PlainText) == Redaction(PlainText, 0)
  {
    assert NoDigit(PlainText) by {
      assert NoDigit("preg_replace() ") && NoDigit("performs a regex ") && NoDigit("search and replace.");
    }
    assert NoAt(PlainText) by {
      NoAtAppend("preg_replace() ", "performs a regex ");
      NoAtAppend("preg_replace() " + "performs a regex ", "search and replace.");
    }
    NoDigitNoPostcode(PlainText);
    NoAtNoEmail(PlainText);
    NoDigitNoNumber(PlainText);
  }
}
