/** The two e-mail regular expressions of the add-student forms, stated as
    the decompositions a backtracking matcher looks for.

    Standard is `/^[^\s@]+@[^\s@]+\.[^\s@]+$/`: a non-empty run without
    white space or '@', an '@', such a run, a '.', and such a run.

    DoubleEscaped is `/^[^\\s@]+@[^\\s@]+\\.[^\\s@]+$/` as it is written in
    a regular-expression literal: there `[^\\s@]` excludes the three
    characters '\', 's' and '@' (white space is allowed), and `\\.` is a
    literal backslash followed by any character but a line terminator. */
module Email {
  import Text

  /** A character of the class `[^\s@]`. */
  predicate PlainChar(c: char) {
    !Text.IsWhitespace(c) && c != '@'
  }

  /** A non-empty run of `[^\s@]`. */
  predicate PlainRun(s: string) {
    |s| > 0 && forall k :: 0 <= k < |s| ==> PlainChar(s[k])
  }

  /** `@` at index `i` and `.` at index `j` split `s` into three plain runs. */
  predicate StandardSplit(s: string, i: nat, j: nat) {
    && i < j < |s|
    && s[i] == '@' && s[j] == '.'
    && PlainRun(s[..i]) && PlainRun(s[i + 1..j]) && PlainRun(s[j + 1..])
  }

  predicate MatchesStandard(s: string) {
    exists i, j :: 0 <= i < j < |s| && StandardSplit(s, i, j)
  }

  /** A character of the class `[^\\s@]`. */
  predicate EscapedClassChar(c: char) {
    c != '\\' && c != 's' && c != '@'
  }

  predicate EscapedRun(s: string) {
    |s| > 0 && forall k :: 0 <= k < |s| ==> EscapedClassChar(s[k])
  }

  /** `@` at index `i`, a backslash at index `j` and any non-terminator at
      `j + 1` split `s` into three runs of `[^\\s@]`. */
  predicate DoubleEscapedSplit(s: string, i: nat, j: nat) {
    && i < j && j + 1 < |s|
    && s[i] == '@' && s[j] == '\\' && !Text.IsLineTerminator(s[j + 1])
    && EscapedRun(s[..i]) && EscapedRun(s[i + 1..j]) && EscapedRun(s[j + 2..])
  }

  predicate MatchesDoubleEscaped(s: string) {
    exists i, j :: 0 <= i < j < |s| && DoubleEscapedSplit(s, i, j)
  }

  /** A standard match has exactly the one '@' and no white space at all. */
  lemma StandardShape(s: string)
    requires MatchesStandard(s)
    ensures forall k :: 0 <= k < |s| ==> !Text.IsWhitespace(s[k])
    ensures exists i :: 0 <= i < |s| && s[i] == '@' && forall k :: 0 <= k < |s| && k != i ==> s[k] != '@'
  {
    var i, j :| 0 <= i < j < |s| && StandardSplit(s, i, j);
    forall k | 0 <= k < |s| && k != i
      ensures PlainChar(s[k]) || (k == j && s[k] == '.')
    {
      if k < i {
        assert s[..i][k] == s[k];
      } else if i < k < j {
        assert s[i + 1..j][k - i - 1] == s[k];
      } else if k > j {
        assert s[j + 1..][k - j - 1] == s[k];
      }
    }
  }

  /** The stored e-mail is the trimmed one; for an accepted standard e-mail
      it is the e-mail as typed. */
  lemma StandardIsTrimmed(s: string)
    requires MatchesStandard(s)
    ensures Text.Trim(s) == s
  {
    StandardShape(s);
    Text.TrimNoWhitespace(s);
  }

  /** Every double-escaped match contains a backslash. */
  lemma DoubleEscapedNeedsBackslash(s: string)
    requires MatchesDoubleEscaped(s)
    ensures '\\' in s
  {
    var i, j :| 0 <= i < j < |s| && DoubleEscapedSplit(s, i, j);
  }

  /** Three plain runs joined by `@` and `.` match the standard pattern. */
  lemma StandardOfParts(local: string, domain: string, tld: string)
    requires PlainRun(local) && PlainRun(domain) && PlainRun(tld)
    ensures MatchesStandard(local + "@" + domain + "." + tld)
  {
    var s := local + "@" + domain + "." + tld;
    var i, j := |local|, |local| + 1 + |domain|;
    assert s[..i] == local;
    assert s[i + 1..j] == domain;
    assert s[j + 1..] == tld;
    assert StandardSplit(s, i, j);
  }

  /** Lower-case ASCII letters and dots are plain characters. */
  lemma LowerAsciiRunIsPlain(s: string)
    requires |s| > 0 && forall k :: 0 <= k < |s| ==> 'a' <= s[k] <= 'z' || s[k] == '.'
    ensures PlainRun(s)
  {
  }

  /** A typical address such as the ones in the student lists. */
  lemma StandardAcceptsTypical()
    ensures MatchesStandard("ana.garcia@email.com")
  {
    LowerAsciiRunIsPlain("ana.garcia");
    LowerAsciiRunIsPlain("email");
    LowerAsciiRunIsPlain("com");
    var s := "ana.garcia@email.com";
    assert s[..10] == "ana.garcia";
    assert s[11..16] == "email";
    assert s[17..] == "com";
    assert StandardSplit(s, 10, 16);
  }

  /** The double-escaped pattern rejects the same address. */
  lemma DoubleEscapedRejectsTypical()
    ensures !MatchesDoubleEscaped("ana.garcia@email.com")
  {
    var s := "ana.garcia@email.com";
    if MatchesDoubleEscaped(s) {
      DoubleEscapedNeedsBackslash(s);
      assert false;
    }
  }

  /** ... and accepts an address with a backslash before the dot. */
  lemma DoubleEscapedAcceptsBackslash()
    ensures MatchesDoubleEscaped("ana@email\\.com")
  {
    var s := "ana@email\\.com";
    assert DoubleEscapedSplit(s, 3, 9) by {
      assert s[..3] == "ana";
      assert s[4..9] == "email";
      assert s[11..] == "com";
    }
  }
}
