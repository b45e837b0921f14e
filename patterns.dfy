/** The concrete regular expressions and string checks that the validators
    use, written as predicates over strings. Python's `re.match` anchors only
    at the start of the subject, but every pattern here begins with `^`; its
    `$` matches at the end of the subject and also just before one final
    newline, which `Match` models. Digit classes are ASCII. */
module Patterns {
  import opened Python

  /** The patterns that occur in the templates and in the fixed-rule
      validators. */
  datatype Regex =
    | NameChars       // one or more ASCII letters, whitespace characters or CJK ideographs U+4E00..U+9FFF
    | UpperAlnum      // one or more of A-Z and 0-9
    | EmployeeNumber  // "EMP" followed by four to eight digits
    | PhoneChars      // one or more of digits, '-', '+', whitespace, '(' and ')'
    | EmailAddress    // local part, '@', domain, '.', a top-level part of two or more letters
    | PatientNumber   // "P" followed by one or more digits

  predicate AllOf(s: string, p: char -> bool) {
    forall i :: 0 <= i < |s| ==> p(s[i])
  }

  predicate IsNameChar(c: char) { IsAsciiLetter(c) || IsSpace(c) || '\U{4e00}' <= c <= '\U{9fff}' }

  predicate IsUpperAlnum(c: char) { 'A' <= c <= 'Z' || IsDigit(c) }

  /** The characters that the phone check removes before counting digits. */
  predicate IsPhoneSeparator(c: char) { IsSpace(c) || c == '-' || c == '(' || c == ')' || c == '+' }

  predicate IsPhoneChar(c: char) { IsDigit(c) || IsPhoneSeparator(c) }

  predicate IsLocalChar(c: char) {
    IsAsciiLetter(c) || IsDigit(c) || c == '.' || c == '_' || c == '%' || c == '+' || c == '-'
  }

  predicate IsDomainChar(c: char) { IsAsciiLetter(c) || IsDigit(c) || c == '.' || c == '-' }

  // ---------------------------------------------------------------------------
  // Searching

  /** The first position of c in s, or |s| when s has none. */
  function IndexOf(s: string, c: char): (k: nat)
    ensures k <= |s|
    ensures k < |s| ==> s[k] == c
    ensures forall i :: 0 <= i < k ==> s[i] != c
  {
    if s == [] then 0 else if s[0] == c then 0 else 1 + IndexOf(s[1..], c)
  }

  /** The last position of c in s, or -1 when s has none. */
  function LastIndexOf(s: string, c: char): (k: int)
    ensures -1 <= k < |s|
    ensures k >= 0 ==> s[k] == c
    ensures forall i :: k < i < |s| ==> s[i] != c
  {
    if s == [] then -1 else if s[|s| - 1] == c then |s| - 1 else LastIndexOf(s[..|s| - 1], c)
  }

  /** A position holding c with no c before it is the first position of c. */
  lemma IndexOfIs(s: string, c: char, i: int)
    requires 0 <= i < |s| && s[i] == c
    requires forall k :: 0 <= k < i ==> s[k] != c
    ensures IndexOf(s, c) == i
  {
  }

  /** A position holding c with no c after it is the last position of c. */
  lemma LastIndexOfIs(s: string, c: char, i: int)
    requires 0 <= i < |s| && s[i] == c
    requires forall k :: i < k < |s| ==> s[k] != c
    ensures LastIndexOf(s, c) == i
  {
  }

  // ---------------------------------------------------------------------------
  // E-mail addresses

  /** What follows the '@': domain characters, then a dot, then at least two
      letters. The top-level part has no dot, so its dot is the last one. */
  predicate IsDomainPart(r: string) {
    var d := LastIndexOf(r, '.');
    d > 0 && |r| - d - 1 >= 2 && AllOf(r[..d], IsDomainChar) && AllOf(r[d + 1..], IsAsciiLetter)
  }

  /** The e-mail shape. The local part's characters exclude '@', so it ends
      at the first '@'. */
  predicate IsEmailBody(s: string) {
    var at := IndexOf(s, '@');
    0 < at < |s| && AllOf(s[..at], IsLocalChar) && IsDomainPart(s[at + 1..])
  }

  /** The way the regular expression reads an address: some '@' at i and some
      dot at j split s into a local part, a domain and a top-level part. */
  ghost predicate EmailSplit(s: string, i: int, j: int) {
    && 0 < i && i + 1 < j && j + 2 < |s|
    && s[i] == '@' && s[j] == '.'
    && AllOf(s[..i], IsLocalChar) && AllOf(s[i + 1..j], IsDomainChar) && AllOf(s[j + 1..], IsAsciiLetter)
  }

  /** The e-mail check accepts exactly the strings that the pattern's
      backtracking search can split. */
  lemma EmailBodyIffSplit(s: string)
    ensures IsEmailBody(s) <==> exists i, j :: EmailSplit(s, i, j)
  {
    if IsEmailBody(s) {
      EmailBodySplits(s);
    }
    if exists i, j :: EmailSplit(s, i, j) {
      var i, j :| EmailSplit(s, i, j);
      EmailSplitIsBody(s, i, j);
    }
  }

  /** The check's own split: the first '@' and the last dot after it. */
  lemma EmailBodySplits(s: string)
    requires IsEmailBody(s)
    ensures EmailSplit(s, IndexOf(s, '@'), IndexOf(s, '@') + 1 + LastIndexOf(s[IndexOf(s, '@') + 1..], '.'))
  {
    var at := IndexOf(s, '@');
    var r := s[at + 1..];
    var d := LastIndexOf(r, '.');
    var j := at + 1 + d;
    assert s[at + 1..j] == r[..d];
    assert s[j + 1..] == r[d + 1..];
  }

  /** Any split the pattern finds is the check's own split. */
  lemma EmailSplitIsBody(s: string, i: int, j: int)
    requires EmailSplit(s, i, j)
    ensures IsEmailBody(s)
  {
    forall k | 0 <= k < i ensures s[k] != '@' {
      assert s[k] == s[..i][k];
    }
    IndexOfIs(s, '@', i);
    var r := s[i + 1..];
    assert r[j - i - 1] == '.';
    forall k | j - i - 1 < k < |r| ensures r[k] != '.' {
      assert r[k] == s[j + 1..][k - (j - i)];
    }
    LastIndexOfIs(r, '.', j - i - 1);
    assert r[..j - i - 1] == s[i + 1..j];
    assert r[j - i..] == s[j + 1..];
  }

  // ---------------------------------------------------------------------------
  // Patterns

  /** The pattern's body between `^` and `$` matches the whole of s. */
  predicate WholeMatch(re: Regex, s: string) {
    match re
    case NameChars => |s| > 0 && AllOf(s, IsNameChar)
    case UpperAlnum => |s| > 0 && AllOf(s, IsUpperAlnum)
    case EmployeeNumber => 7 <= |s| <= 11 && s[..3] == "EMP" && AllDigits(s[3..])
    case PhoneChars => |s| > 0 && AllOf(s, IsPhoneChar)
    case EmailAddress => IsEmailBody(s)
    case PatientNumber => |s| >= 2 && s[0] == 'P' && AllDigits(s[1..])
  }

  /** `re.match(pattern, s) is not None`. */
  predicate Match(re: Regex, s: string) {
    || WholeMatch(re, s)
    || (|s| > 0 && s[|s| - 1] == '\n' && WholeMatch(re, s[..|s| - 1]))
  }

  /** For the classes that contain whitespace the final-newline rule adds
      nothing: a match is a whole match. */
  lemma NewlineAbsorbed(re: Regex, s: string)
    requires re == NameChars || re == PhoneChars
    ensures Match(re, s) <==> WholeMatch(re, s)
  {
    if |s| > 0 && s[|s| - 1] == '\n' && WholeMatch(re, s[..|s| - 1]) {
      assert IsSpace('\n');
      assert forall i :: 0 <= i < |s| - 1 ==> s[..|s| - 1][i] == s[i];
    }
  }

  // ---------------------------------------------------------------------------
  // Phone numbers (template-driven validator)

  /** `re.sub` of every separator by nothing. */
  function RemoveSeparators(s: string): string {
    if s == [] then []
    else (if IsPhoneSeparator(s[0]) then [] else [s[0]]) + RemoveSeparators(s[1..])
  }

  /** What is left after removing separators has at least eight characters,
      all of them digits. */
  predicate ValidPhone(s: string) {
    var cleaned := RemoveSeparators(s);
    |cleaned| >= 8 && AllDigits(cleaned)
  }

  function DigitCount(s: string): nat {
    if s == [] then 0 else (if IsDigit(s[0]) then 1 else 0) + DigitCount(s[1..])
  }

  lemma {:induction false} RemoveSeparatorsDigits(s: string)
    ensures AllDigits(RemoveSeparators(s)) <==> AllOf(s, IsPhoneChar)
    ensures AllOf(s, IsPhoneChar) ==> |RemoveSeparators(s)| == DigitCount(s)
  {
    if s != [] {
      var c, tail := s[0], s[1..];
      RemoveSeparatorsDigits(tail);
      AllOfCons(s, IsPhoneChar);
      var head := if IsPhoneSeparator(c) then [] else [c];
      assert RemoveSeparators(s) == head + RemoveSeparators(tail);
      AllDigitsConcat(head, RemoveSeparators(tail));
      assert AllDigits(head) <==> IsPhoneChar(c) by {
        if !IsPhoneSeparator(c) { assert head[0] == c; }
      }
    }
  }

  lemma AllOfCons(s: string, p: char -> bool)
    requires s != []
    ensures AllOf(s, p) <==> p(s[0]) && AllOf(s[1..], p)
  {
    if p(s[0]) && AllOf(s[1..], p) {
      forall i | 0 <= i < |s| ensures p(s[i]) {
        if i > 0 { assert s[i] == s[1..][i - 1]; }
      }
    }
    if AllOf(s, p) {
      forall i | 0 <= i < |s[1..]| ensures p(s[1..][i]) {
        assert s[1..][i] == s[i + 1];
      }
    }
  }

  lemma AllDigitsConcat(a: string, b: string)
    ensures AllDigits(a + b) <==> AllDigits(a) && AllDigits(b)
  {
    if AllDigits(a) && AllDigits(b) {
      forall i | 0 <= i < |a + b| ensures IsDigit((a + b)[i]) {
        if i >= |a| { assert (a + b)[i] == b[i - |a|]; }
      }
    }
    if AllDigits(a + b) {
      forall i | 0 <= i < |b| ensures IsDigit(b[i]) {
        assert (a + b)[|a| + i] == b[i];
      }
      forall i | 0 <= i < |a| ensures IsDigit(a[i]) {
        assert (a + b)[i] == a[i];
      }
    }
  }

  /** The phone check accepts a string exactly when it is made of digits and
      separators only and holds at least eight digits. */
  lemma ValidPhoneIff(s: string)
    ensures ValidPhone(s) <==> AllOf(s, IsPhoneChar) && DigitCount(s) >= 8
  {
    RemoveSeparatorsDigits(s);
  }

  // ---------------------------------------------------------------------------
  // Dates: datetime.strptime(s, '%Y-%m-%d')

  /** A month as the `%m` directive reads it: 1-9, 01-09 or 10-12. */
  predicate IsMonthToken(m: string) {
    || (|m| == 1 && '1' <= m[0] <= '9')
    || (|m| == 2 && m[0] == '0' && '1' <= m[1] <= '9')
    || (|m| == 2 && m[0] == '1' && '0' <= m[1] <= '2')
  }

  /** A day as the `%d` directive reads it: 1-9, 01-09, a space and 1-9,
      10-29, 30 or 31. */
  predicate IsDayToken(d: string) {
    || (|d| == 1 && '1' <= d[0] <= '9')
    || (|d| == 2 && (d[0] == '0' || d[0] == ' ') && '1' <= d[1] <= '9')
    || (|d| == 2 && (d[0] == '1' || d[0] == '2') && IsDigit(d[1]))
    || (|d| == 2 && d[0] == '3' && (d[1] == '0' || d[1] == '1'))
  }

  /** The number a month or day token stands for (a leading space is
      skipped, as `int()` does). */
  function TokenValue(t: string): nat
    requires IsMonthToken(t) || IsDayToken(t)
  {
    if |t| == 1 then DigitValue(t[0])
    else if t[0] == ' ' then DigitValue(t[1])
    else DigitValue(t[0]) * 10 + DigitValue(t[1])
  }

  datatype Date = Date(year: nat, month: nat, day: nat)

  /** The fields that strptime's pattern captures: four digits, '-', a month
      token, '-', a day token, and nothing after it. A month token holds no
      '-', so it ends at the first '-' after the year. */
  function ParseDate(s: string): (r: Option<Date>)
    ensures r.Some? ==> 1 <= r.value.month <= 12 && 1 <= r.value.day <= 31 && r.value.year <= 9999
  {
    if |s| < 5 || !AllDigits(s[..4]) || s[4] != '-' then None
    else
      var rest := s[5..];
      var dash := IndexOf(rest, '-');
      if dash == |rest| then None
      else
        var m, d := rest[..dash], rest[dash + 1..];
        if IsMonthToken(m) && IsDayToken(d) then
          Some(Date(Value4(s[..4]), TokenValue(m), TokenValue(d)))
        else None
  }

  function Value4(y: string): (v: nat)
    requires |y| == 4 && AllDigits(y)
    ensures v == DecimalValue(y) && v <= 9999
  {
    assert DecimalValue(y[..3]) == DecimalValue(y[..2]) * 10 + DigitValue(y[2]) by {
      assert y[..3][..2] == y[..2];
    }
    assert DecimalValue(y[..2]) == DecimalValue(y[..1]) * 10 + DigitValue(y[1]) by {
      assert y[..2][..1] == y[..1];
    }
    assert DecimalValue(y[..1]) == DigitValue(y[0]) by {
      assert y[..1][..0] == [];
    }
    DigitValue(y[0]) * 1000 + DigitValue(y[1]) * 100 + DigitValue(y[2]) * 10 + DigitValue(y[3])
  }

  predicate IsLeapYear(y: int) { y % 4 == 0 && (y % 100 != 0 || y % 400 == 0) }

  function DaysInMonth(y: int, m: int): int {
    if m == 2 then (if IsLeapYear(y) then 29 else 28)
    else if m == 4 || m == 6 || m == 9 || m == 11 then 30
    else 31
  }

  /** `strptime(str(value), '%Y-%m-%d')` does not raise: the fields parse and
      name a day of the proleptic Gregorian calendar from year 1 on. */
  predicate ValidDate(s: string) {
    match ParseDate(s)
    case Some(d) => d.year >= 1 && d.day <= DaysInMonth(d.year, d.month)
    case None => false
  }

  /** On the canonical form YYYY-MM-DD the date check accepts exactly the
      calendar dates: year at least 1, month 1-12, and a day that exists in
      that month under the leap-year rule. */
  lemma CanonicalDate(s: string)
    requires |s| == 10 && s[4] == '-' && s[7] == '-'
    requires AllDigits(s[..4]) && AllDigits(s[5..7]) && AllDigits(s[8..])
    ensures ValidDate(s) <==>
              var y, m, d := DecimalValue(s[..4]), DecimalValue(s[5..7]), DecimalValue(s[8..]);
              y >= 1 && 1 <= m <= 12 && 1 <= d <= DaysInMonth(y, m)
  {
    var rest := s[5..];
    assert rest[2] == '-' && rest[0] != '-' && rest[1] != '-' by {
      assert rest[0] == s[5] && rest[1] == s[6] && IsDigit(s[5..7][0]) && IsDigit(s[5..7][1]);
    }
    assert IndexOf(rest, '-') == 2;
    assert rest[..2] == s[5..7] && rest[3..] == s[8..];
    TwoDigitValue(s[5..7]);
    TwoDigitValue(s[8..]);
  }

  lemma TwoDigitValue(t: string)
    requires |t| == 2 && AllDigits(t)
    ensures DecimalValue(t) == DigitValue(t[0]) * 10 + DigitValue(t[1])
    ensures IsMonthToken(t) <==> 1 <= DecimalValue(t) <= 12
    ensures IsDayToken(t) <==> 1 <= DecimalValue(t) <= 31
    ensures (IsMonthToken(t) || IsDayToken(t)) ==> TokenValue(t) == DecimalValue(t)
  {
    assert DecimalValue(t[..1]) == DigitValue(t[0]) by {
      assert t[..1][..0] == [];
    }
  }
}
