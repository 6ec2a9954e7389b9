/** The JavaScript string operations the screens rely on: `trim`,
    `toLowerCase`/`toUpperCase`, `includes`, `split`/`join`, `parseFloat` of
    a duration's first token and number-to-string conversion. */
module Text {
  import opened Wrappers

  /** The characters JavaScript's `\s` class and `String.prototype.trim`
      treat as white space or line terminators. */
  predicate IsWhitespace(c: char) {
    || c == ' ' || c == '\t' || c == '\n' || c == '\U{000B}' || c == '\U{000C}' || c == '\r'
    || c == '\U{00A0}' || c == '\U{1680}' || ('\U{2000}' <= c <= '\U{200A}')
    || c == '\U{2028}' || c == '\U{2029}' || c == '\U{202F}' || c == '\U{205F}'
    || c == '\U{3000}' || c == '\U{FEFF}'
  }

  /** The line terminators, which a regular expression's `.` does not match. */
  predicate IsLineTerminator(c: char) {
    c == '\n' || c == '\r' || c == '\U{2028}' || c == '\U{2029}'
  }

  predicate AllWhitespace(s: string) {
    forall i :: 0 <= i < |s| ==> IsWhitespace(s[i])
  }

  /** `s.trimStart()`: drops the leading white space, nothing else. */
  function TrimStart(s: string): (r: string)
    ensures |r| <= |s| && r == s[|s| - |r|..]
    ensures AllWhitespace(s[..|s| - |r|])
    ensures r == [] || !IsWhitespace(r[0])
  {
    if s != [] && IsWhitespace(s[0]) then TrimStart(s[1..]) else s
  }

  /** `s.trimEnd()`: drops the trailing white space, nothing else. */
  function TrimEnd(s: string): (r: string)
    ensures |r| <= |s| && r == s[..|r|]
    ensures AllWhitespace(s[|r|..])
    ensures r == [] || !IsWhitespace(r[|r| - 1])
  {
    if s != [] && IsWhitespace(s[|s| - 1]) then TrimEnd(s[..|s| - 1]) else s
  }

  /** `s.trim()`. */
  function Trim(s: string): string {
    TrimEnd(TrimStart(s))
  }

  /** `!s.trim()`: the field is empty once trimmed. */
  predicate IsBlank(s: string) {
    Trim(s) == ""
  }

  /** A string is blank exactly when every character in it is white space. */
  lemma BlankIffAllWhitespace(s: string)
    ensures IsBlank(s) <==> AllWhitespace(s)
  {
    if AllWhitespace(s) {
      TrimStartOfWhitespace(s);
    } else {
      var i :| 0 <= i < |s| && !IsWhitespace(s[i]);
      var j := TrimStartKeeps(s, i);
      TrimEndKeeps(TrimStart(s), j);
    }
  }

  lemma {:induction false} TrimStartOfWhitespace(s: string)
    requires AllWhitespace(s)
    ensures TrimStart(s) == ""
  {
    if s != [] {
      TrimStartOfWhitespace(s[1..]);
    }
  }

  /** A non-blank character survives `trimStart`, at index `j`. */
  lemma {:induction false} TrimStartKeeps(s: string, i: nat) returns (j: nat)
    requires i < |s| && !IsWhitespace(s[i])
    ensures j < |TrimStart(s)| && !IsWhitespace(TrimStart(s)[j])
  {
    if IsWhitespace(s[0]) {
      j := TrimStartKeeps(s[1..], i - 1);
    } else {
      j := i;
    }
  }

  /** A string holding a non-blank character is not emptied by `trimEnd`. */
  lemma {:induction false} TrimEndKeeps(s: string, i: nat)
    requires i < |s| && !IsWhitespace(s[i])
    ensures TrimEnd(s) != ""
  {
    if IsWhitespace(s[|s| - 1]) {
      TrimEndKeeps(s[..|s| - 1], i);
    }
  }

  /** A field that starts with a visible character is not blank. */
  lemma NotBlankWhenLeadingVisible(s: string)
    requires |s| > 0 && !IsWhitespace(s[0])
    ensures !IsBlank(s)
  {
    assert TrimStart(s) == s;
    TrimEndKeeps(s, 0);
  }

  /** Trimming a string without white space leaves it unchanged. */
  lemma TrimNoWhitespace(s: string)
    requires forall i :: 0 <= i < |s| ==> !IsWhitespace(s[i])
    ensures Trim(s) == s
  {
    assert TrimStart(s) == s;
  }

  /** Latin-1 case mapping of `toLowerCase` (U+0041..U+005A and
      U+00C0..U+00DE without U+00D7 map to their lower-case letters). */
  function LowerChar(c: char): char {
    if 'A' <= c <= 'Z' || ('\U{00C0}' <= c <= '\U{00DE}' && c != '\U{00D7}')
    then (c as int + 32) as char
    else c
  }

  /** Latin-1 case mapping of `toUpperCase`, the inverse direction of LowerChar. */
  function UpperChar(c: char): char {
    if 'a' <= c <= 'z' || ('\U{00E0}' <= c <= '\U{00FE}' && c != '\U{00F7}')
    then (c as int - 32) as char
    else c
  }

  function ToLower(s: string): (r: string)
    ensures |r| == |s|
  {
    seq(|s|, i requires 0 <= i < |s| => LowerChar(s[i]))
  }

  function ToUpper(s: string): (r: string)
    ensures |r| == |s|
  {
    seq(|s|, i requires 0 <= i < |s| => UpperChar(s[i]))
  }

  /** Lower-casing twice is lower-casing once. */
  lemma ToLowerIdempotent(s: string)
    ensures ToLower(ToLower(s)) == ToLower(s)
  {
    forall i | 0 <= i < |s| ensures ToLower(ToLower(s))[i] == ToLower(s)[i] {
      var c := s[i];
      assert ToLower(s)[i] == LowerChar(c);
    }
  }

  /** Digits have no case: only the letter after them is capitalised. */
  lemma ToUpperOfDigitsThen(d: string, c: char)
    requires AllDigits(d)
    ensures ToUpper(d + [c]) == d + [UpperChar(c)]
  {
    forall i | 0 <= i < |d| ensures ToUpper(d + [c])[i] == d[i] {
      assert (d + [c])[i] == d[i] && IsDigit(d[i]);
    }
  }

  /** `s.includes(t)`. */
  predicate Includes(s: string, t: string) {
    exists i :: 0 <= i <= |s| - |t| && OccursAt(s, t, i)
  }

  /** `t` occurs in `s` starting at index `i`. */
  predicate OccursAt(s: string, t: string, i: nat) {
    i + |t| <= |s| && s[i..i + |t|] == t
  }

  /** Every string includes the empty search term. */
  lemma IncludesEmpty(s: string)
    ensures Includes(s, "")
  {
    assert OccursAt(s, "", 0);
  }

  // ---------------------------------------------------------------------
  // split / reverse / join

  /** `s.split(c)` for a one-character separator. */
  function Split(s: string, c: char): (r: seq<string>)
    ensures |r| >= 1
  {
    if s == [] then [""]
    else
      var rest := Split(s[1..], c);
      if s[0] == c then [""] + rest else [[s[0]] + rest[0]] + rest[1..]
  }

  /** A separator-free prefix up to the first separator becomes the first piece. */
  lemma {:induction false} SplitAt(a: string, c: char, b: string)
    requires c !in a
    ensures Split(a + [c] + b, c) == [a] + Split(b, c)
  {
    if a == [] {
      assert a + [c] + b == [c] + b;
      assert ([c] + b)[1..] == b;
    } else {
      assert (a + [c] + b)[1..] == a[1..] + [c] + b;
      SplitAt(a[1..], c, b);
      assert [a[0]] + a[1..] == a;
    }
  }

  /** A string without the separator is one piece. */
  lemma {:induction false} SplitNone(a: string, c: char)
    requires c !in a
    ensures Split(a, c) == [a]
  {
    if a != [] {
      SplitNone(a[1..], c);
      assert [a[0]] + a[1..] == a;
    }
  }

  function Reverse<T>(s: seq<T>): (r: seq<T>)
    ensures |r| == |s|
    ensures forall i :: 0 <= i < |s| ==> r[i] == s[|s| - 1 - i]
  {
    if s == [] then [] else Reverse(s[1..]) + [s[0]]
  }

  /** `parts.join(c)`. */
  function Join(parts: seq<string>, c: char): string {
    if parts == [] then ""
    else if |parts| == 1 then parts[0]
    else parts[0] + [c] + Join(parts[1..], c)
  }

  // ---------------------------------------------------------------------
  // numbers

  predicate IsDigit(c: char) {
    '0' <= c <= '9'
  }

  predicate AllDigits(s: string) {
    forall i :: 0 <= i < |s| ==> IsDigit(s[i])
  }

  function DigitChar(d: nat): char
    requires d < 10
  {
    ('0' as int + d) as char
  }

  /** The value of a non-empty run of decimal digits. */
  function DigitsValue(s: string): nat
    requires AllDigits(s)
  {
    if s == [] then 0
    else DigitsValue(s[..|s| - 1]) * 10 + (s[|s| - 1] as int - '0' as int)
  }

  /** The longest prefix of decimal digits, which is what `parseFloat`
      reads of an integer token. */
  function LeadingDigits(s: string): (r: string)
    ensures |r| <= |s| && r == s[..|r|] && AllDigits(r)
    ensures |r| < |s| ==> !IsDigit(s[|r|])
  {
    if s != [] && IsDigit(s[0]) then [s[0]] + LeadingDigits(s[1..]) else ""
  }

  /** `s.split(' ')[0]`: the text before the first space. */
  function FirstToken(s: string): (r: string)
    ensures |r| <= |s| && r == s[..|r|] && ' ' !in r
    ensures |r| < |s| ==> s[|r|] == ' '
  {
    if s == [] || s[0] == ' ' then "" else [s[0]] + FirstToken(s[1..])
  }

  /** `parseFloat(duration.split(' ')[0])` for a token whose number is an
      integer; None stands for NaN (the token does not start with a digit). */
  function ParseHours(duration: string): Option<nat> {
    var d := LeadingDigits(FirstToken(duration));
    if d == "" then None else Some(DigitsValue(d))
  }

  /** `String(n)` for a natural number: its decimal digits. */
  function NatToString(n: nat): (r: string)
    ensures |r| >= 1 && AllDigits(r)
  {
    if n < 10 then [DigitChar(n)] else NatToString(n / 10) + [DigitChar(n % 10)]
  }

  /** `String(i)` for an integer. */
  function IntToString(i: int): string {
    if i < 0 then "-" + NatToString(-i) else NatToString(i)
  }

  /** Printing a number and reading its digits back gives the number. */
  lemma {:induction false} DigitsValueOfNatToString(n: nat)
    ensures DigitsValue(NatToString(n)) == n
  {
    var s := NatToString(n);
    if n >= 10 {
      DigitsValueOfNatToString(n / 10);
      assert s[..|s| - 1] == NatToString(n / 10);
    }
  }

  /** The leading-digit run of digits followed by a non-digit is those digits. */
  lemma {:induction false} LeadingDigitsOfDigits(d: string, rest: string)
    requires AllDigits(d)
    requires rest == [] || !IsDigit(rest[0])
    ensures LeadingDigits(d + rest) == d
  {
    if d != [] {
      assert (d + rest)[1..] == d[1..] + rest;
      LeadingDigitsOfDigits(d[1..], rest);
      assert [d[0]] + d[1..] == d;
    } else {
      assert d + rest == rest;
    }
  }

  /** The first token of a space-free word followed by a space-led tail is the word. */
  lemma {:induction false} FirstTokenOf(w: string, tail: string)
    requires ' ' !in w
    requires tail == [] || tail[0] == ' '
    ensures FirstToken(w + tail) == w
  {
    if w != [] {
      assert (w + tail)[1..] == w[1..] + tail;
      FirstTokenOf(w[1..], tail);
      assert [w[0]] + w[1..] == w;
    } else {
      assert w + tail == tail;
    }
  }

  /** `"<h> h. <m> min."`, the form the screens print durations in. */
  function FormatDuration(hours: nat, minutes: nat): string {
    NatToString(hours) + " h. " + NatToString(minutes) + " min."
  }

  /** Reading the hours of a printed duration gives back the hours. */
  lemma DurationRoundTrip(hours: nat, minutes: nat)
    ensures ParseHours(FormatDuration(hours, minutes)) == Some(hours)
  {
    var w := NatToString(hours);
    var tail := " h. " + NatToString(minutes) + " min.";
    assert FormatDuration(hours, minutes) == w + tail;
    assert forall i :: 0 <= i < |w| ==> IsDigit(w[i]);
    FirstTokenOf(w, tail);
    LeadingDigitsOfDigits(w, "");
    assert w + "" == w;
    DigitsValueOfNatToString(hours);
  }
}
