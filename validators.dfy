/**
 * The static field validators of the `Contact` class. Each returns the
 * (normalised) value or the failure of the first check that rejects it, in
 * the order the source evaluates its checks.
 */
module Validators {
  import opened Wrappers
  import opened Text
  import opened JsValues
  import opened Errors
  import opened Dates

  // ---------------------------------------------------------------- names

  /** `validateFirstName`: a string whose trimmed length is 2 to 12 code units; returns it trimmed. */
  function ValidateFirstName(value: Value, field: string): (r: Result<string, ValidationError>)
    ensures r.Success? <==> value.Str? && 2 <= Utf16Length(Trim(value.s)) <= 12
    ensures r.Success? ==> r.value == Trim(value.s)
    ensures !value.Str? ==> r == Failure(NotAString(field))
    ensures value.Str? && r.Failure? ==> r.error == FirstNameLength(field)
  {
    if !value.Str? then Failure(NotAString(field))
    else
      var trimmed := Trim(value.s);
      if Utf16Length(trimmed) < 2 || Utf16Length(trimmed) > 12 then Failure(FirstNameLength(field))
      else Success(trimmed)
  }

  /** A first name the validator accepted is accepted again, unchanged. */
  lemma FirstNameIdempotent(value: Value, field: string)
    requires ValidateFirstName(value, field).Success?
    ensures ValidateFirstName(Str(ValidateFirstName(value, field).value), field)
            == ValidateFirstName(value, field)
  {
    TrimIdempotent(value.s);
  }

  /**
   * A single emoji is one character but two code units, so it meets the
   * two-character minimum.
   */
  lemma EmojiFirstNameAccepted(t: string)
    requires t == "\U{1F600}"
    ensures ValidateFirstName(Str(t), "First Name") == Success(t)
  {
    TrimOfTrimmed(t);
    Utf16LengthSingle(t[0]);
    assert t == [t[0]];
  }

  predicate IsNamePunctuation(c: char) {
    c == '-' || c == '\''
  }

  /** `/^[A-Za-z][A-Za-z'\-]*[A-Za-z]$/`: a letter, then letters, apostrophes or hyphens, then a letter. */
  predicate MatchesLastNamePattern(t: string) {
    |t| >= 2 && IsAsciiLetter(t[0]) && IsAsciiLetter(t[|t| - 1])
    && forall k :: 1 <= k < |t| - 1 ==> IsAsciiLetter(t[k]) || IsNamePunctuation(t[k])
  }

  /** `/[-']{2,}/` finds a match: two punctuation characters side by side. */
  predicate HasDoubledPunctuation(t: string) {
    exists k :: 0 <= k < |t| - 1 && IsNamePunctuation(t[k]) && IsNamePunctuation(t[k + 1])
  }

  /** What an accepted last name looks like, stated character by character. */
  predicate IsAcceptableLastName(t: string) {
    && 2 <= |t| <= 20
    && IsAsciiLetter(t[0]) && IsAsciiLetter(t[|t| - 1])
    && (forall k :: 0 <= k < |t| ==> IsAsciiLetter(t[k]) || IsNamePunctuation(t[k]))
    && (forall k :: 0 <= k < |t| - 1 ==> !(IsNamePunctuation(t[k]) && IsNamePunctuation(t[k + 1])))
    && Count(t, '-') <= 1
    && Count(t, '\'') <= 2
  }

  /** The checks made on the trimmed last name, each with the error it throws, in source order. */
  function LastNameChecks(t: string, field: string): seq<Option<ValidationError>> {
    [ if Utf16Length(t) < 2 || Utf16Length(t) > 20 then Some(LastNameLength(field)) else None,
      if !MatchesLastNamePattern(t) then Some(LastNameShape(field)) else None,
      if HasDoubledPunctuation(t) then Some(ConsecutivePunctuation(field)) else None,
      if Count(t, '-') > 1 then Some(TooManyHyphens(field)) else None,
      if Count(t, '\'') > 2 then Some(TooManyApostrophes(field)) else None ]
  }

  /**
   * `validateLastName`: type, trimmed length 2 to 20, pattern, no doubled
   * punctuation, then the two counts; a string is rejected with the error of
   * the first of these checks that fails.
   */
  function ValidateLastName(value: Value, field: string): (r: Result<string, ValidationError>)
    ensures r.Success? <==> value.Str? && IsAcceptableLastName(Trim(value.s))
    ensures r.Success? ==> r.value == Trim(value.s)
    ensures !value.Str? ==> r == Failure(NotAString(field))
    ensures value.Str? ==> ErrorOf(r) == FirstError(LastNameChecks(Trim(value.s), field))
  {
    if !value.Str? then Failure(NotAString(field))
    else
      var trimmed := Trim(value.s);
      LastNameChecksAgree(trimmed);
      var c := LastNameChecks(trimmed, field);
      FirstErrorCons(c[4], []);
      FirstErrorCons(c[3], [c[4]]);
      FirstErrorCons(c[2], [c[3], c[4]]);
      FirstErrorCons(c[1], [c[2], c[3], c[4]]);
      FirstErrorCons(c[0], [c[1], c[2], c[3], c[4]]);
      if Utf16Length(trimmed) < 2 || Utf16Length(trimmed) > 20 then Failure(LastNameLength(field))
      else if !MatchesLastNamePattern(trimmed) then Failure(LastNameShape(field))
      else if HasDoubledPunctuation(trimmed) then Failure(ConsecutivePunctuation(field))
      else if Count(trimmed, '-') > 1 then Failure(TooManyHyphens(field))
      else if Count(trimmed, '\'') > 2 then Failure(TooManyApostrophes(field))
      else Success(trimmed)
  }

  /** The source's five checks, passed in sequence, say exactly what `IsAcceptableLastName` says. */
  lemma LastNameChecksAgree(t: string)
    ensures (&& 2 <= Utf16Length(t) <= 20
             && MatchesLastNamePattern(t)
             && !HasDoubledPunctuation(t)
             && Count(t, '-') <= 1
             && Count(t, '\'') <= 2)
            <==> IsAcceptableLastName(t)
  {
    AsciiLength(t);
  }

  /** A string of letters and name punctuation is as long in code units as in characters. */
  lemma AsciiLength(t: string)
    ensures (forall k :: 0 <= k < |t| ==> IsAsciiLetter(t[k]) || IsNamePunctuation(t[k]))
            ==> Utf16Length(t) == |t|
  {
  }

  /** A last name the validator accepted is accepted again, unchanged. */
  lemma LastNameIdempotent(value: Value, field: string)
    requires ValidateLastName(value, field).Success?
    ensures ValidateLastName(Str(ValidateLastName(value, field).value), field)
            == ValidateLastName(value, field)
  {
    TrimIdempotent(value.s);
  }

  // The worked examples below take the name as a parameter fixed by a
  // `requires t == ...` rather than writing the literal into the statement:
  // the solver then meets the string literal once, in a small lemma that
  // lists its characters (IsHyphenatedExample), and the larger proofs reason
  // about those characters instead of unfolding the literal each time.

  /** "O''Brien" passes the pattern and is stopped by the doubled-punctuation check. */
  lemma DoubledApostropheRejected(t: string)
    requires t == "O''Brien"
    ensures ValidateLastName(Str(t), "Last Name") == Failure(ConsecutivePunctuation("Last Name"))
  {
    TrimOfTrimmed(t);
    assert MatchesLastNamePattern(t);
    AsciiLength(t);
    assert IsNamePunctuation(t[1]) && IsNamePunctuation(t[2]);
    assert HasDoubledPunctuation(t);
  }

  /** One hyphen and one apostrophe, never side by side: accepted as is. */
  lemma HyphenAndApostropheAccepted(t: string)
    requires t == "O'Brien-Smith"
    ensures ValidateLastName(Str(t), "Last Name") == Success(t)
  {
    HyphenatedChars(t);
    HyphenatedIsAcceptable(t);
    TrimOfTrimmed(t);
    AcceptableIsAccepted(t, "Last Name");
  }

  /** The characters of "O'Brien-Smith", one by one. */
  predicate IsHyphenatedExample(t: string) {
    && |t| == 13
    && t[0] == 'O' && t[1] == '\'' && t[2] == 'B' && t[3] == 'r' && t[4] == 'i' && t[5] == 'e'
    && t[6] == 'n' && t[7] == '-' && t[8] == 'S' && t[9] == 'm' && t[10] == 'i' && t[11] == 't'
    && t[12] == 'h'
  }

  /** Every character is a letter or name punctuation, and no two punctuation marks touch. */
  lemma HyphenatedIsAcceptable(t: string)
    requires IsHyphenatedExample(t)
    ensures IsAcceptableLastName(t)
  {
    HyphenatedCounts(t);
    forall k | 0 <= k < |t| ensures IsAsciiLetter(t[k]) || IsNamePunctuation(t[k]) {
      assert k in {0, 1, 2, 3, 4, 5, 6, 7, 8, 9, 10, 11, 12};
    }
    forall k | 0 <= k < |t| - 1 ensures !(IsNamePunctuation(t[k]) && IsNamePunctuation(t[k + 1])) {
      assert k in {0, 1, 2, 3, 4, 5, 6, 7, 8, 9, 10, 11};
    }
  }

  /** One hyphen and one apostrophe. */
  lemma HyphenatedCounts(t: string)
    requires IsHyphenatedExample(t)
    ensures Count(t, '-') == 1 && Count(t, '\'') == 1
  {
    CountOne(t, '\'', 1);
    CountOne(t, '-', 7);
  }

  /** An acceptable name with nothing to trim comes back unchanged. */
  lemma AcceptableIsAccepted(t: string, field: string)
    requires IsAcceptableLastName(t) && Trim(t) == t
    ensures ValidateLastName(Str(t), field) == Success(t)
  {
  }

  /** The literal has the characters IsHyphenatedExample lists. */
  lemma HyphenatedChars(t: string)
    requires t == "O'Brien-Smith"
    ensures IsHyphenatedExample(t)
  {
  }

  // ---------------------------------------------------------------- phone

  /** `/^07\d{9}$/`: the characters "07" followed by exactly nine ASCII digits. */
  predicate MatchesPhonePattern(s: string) {
    |s| == 11 && s[..2] == "07" && forall k :: 2 <= k < |s| ==> IsAsciiDigit(s[k])
  }

  /** `validatePhone`: eleven ASCII digits starting "07"; returns its input unchanged. */
  function ValidatePhone(value: string): (r: Result<string, ValidationError>)
    ensures r.Success? <==> |value| == 11 && value[0] == '0' && value[1] == '7'
                            && forall k :: 0 <= k < |value| ==> IsAsciiDigit(value[k])
    ensures r.Success? ==> r.value == value
    ensures r.Failure? ==> r.error == BadPhone
  {
    if !MatchesPhonePattern(value) then Failure(BadPhone) else Success(value)
  }

  lemma PhoneExamples()
    ensures ValidatePhone("07123456789") == Success("07123456789")
    ensures ValidatePhone("08123456789") == Failure(BadPhone)
    ensures ValidatePhone("0712345678") == Failure(BadPhone)
  {
    assert "07123456789"[..2] == "07";
  }

  // ---------------------------------------------------------------- email

  /** One run of `[^\s@]+`. */
  predicate IsEmailSegment(x: string) {
    |x| > 0 && forall k :: 0 <= k < |x| ==> !IsJsWhitespace(x[k]) && x[k] != '@'
  }

  /** `/^[^\s@]+@[^\s@]+\.[^\s@]+$/`, as the concatenation the pattern describes. */
  ghost predicate MatchesEmailPattern(s: string) {
    exists a, b, c :: IsEmailSegment(a) && IsEmailSegment(b) && IsEmailSegment(c)
                      && s == a + "@" + b + "." + c
  }

  /**
   * No whitespace, exactly one `@` with something before it, and a `.` after
   * the `@` that is neither the first nor the last character of the domain.
   */
  predicate HasEmailShape(s: string) {
    && (forall k :: 0 <= k < |s| ==> !IsJsWhitespace(s[k]))
    && Count(s, '@') == 1
    && exists i :: 0 < i < |s| && s[i] == '@'
                 && exists j :: i + 1 < j < |s| - 1 && s[j] == '.'
  }

  /** `validateEmail`: returns its input unchanged when the pattern matches. */
  function ValidateEmail(value: string): (r: Result<string, ValidationError>)
    ensures r.Success? <==> MatchesEmailPattern(value)
    ensures r.Success? ==> r.value == value
    ensures r.Failure? ==> r.error == BadEmail
  {
    EmailShapeIsPattern(value);
    if HasEmailShape(value) then Success(value) else Failure(BadEmail)
  }

  /**
   * The runs may hold dots themselves: in "a@b.c." the last run is "c.", so
   * the address is accepted although nothing follows its last dot.
   */
  lemma TrailingDotAccepted(t: string)
    requires t == "a@b.c."
    ensures ValidateEmail(t) == Success(t)
  {
    var a, b, c := "a", "b", "c.";
    assert IsEmailSegment(a) && IsEmailSegment(b) && IsEmailSegment(c);
    assert t == a + "@" + b + "." + c;
  }

  /** Each occurrence of `c` beyond position `i` adds to the count. */
  lemma CountSplit(s: string, c: char, i: int)
    requires 0 <= i <= |s|
    ensures Count(s, c) == Count(s[..i], c) + Count(s[i..], c)
  {
    if i > 0 {
      assert s[1..][..i - 1] == s[..i][1..];
      assert s[1..][i - 1..] == s[i..];
      CountSplit(s[1..], c, i - 1);
    }
  }

  /** `Count` is zero exactly when the character does not occur. */
  lemma CountOne(s: string, c: char, i: int)
    requires 0 <= i < |s| && s[i] == c
    ensures Count(s, c) == 1 <==> forall k :: 0 <= k < |s| && k != i ==> s[k] != c
  {
    CountSplit(s, c, i);
    CountSplit(s[i..], c, 1);
    assert s[i..][..1] == [c];
    assert s[i..][1..] == s[i + 1..];
    if Count(s, c) == 1 {
      forall k | 0 <= k < |s| && k != i
        ensures s[k] != c
      {
        if k < i {
          assert s[..i][k] == s[k];
        } else {
          assert s[i + 1..][k - i - 1] == s[k];
        }
      }
    } else {
      if c !in s[..i] {
        assert c in s[i + 1..];
        var m :| 0 <= m < |s[i + 1..]| && s[i + 1..][m] == c;
        assert s[i + 1 + m] == c;
      } else {
        var m :| 0 <= m < |s[..i]| && s[..i][m] == c;
        assert s[m] == c;
      }
    }
  }

  /** The executable shape test and the regular expression accept the same strings. */
  lemma EmailShapeIsPattern(s: string)
    ensures HasEmailShape(s) <==> MatchesEmailPattern(s)
  {
    if HasEmailShape(s) {
      ShapeGivesPattern(s);
    }
    if MatchesEmailPattern(s) {
      var a, b, c :| IsEmailSegment(a) && IsEmailSegment(b) && IsEmailSegment(c)
                     && s == a + "@" + b + "." + c;
      PatternGivesShape(s, a, b, c);
    }
  }

  /** Cutting at the `@` and at a `.` after it gives the three runs of the pattern. */
  lemma ShapeGivesPattern(s: string)
    requires HasEmailShape(s)
    ensures MatchesEmailPattern(s)
  {
    var i :| 0 < i < |s| && s[i] == '@' && exists j :: i + 1 < j < |s| - 1 && s[j] == '.';
    var j :| i + 1 < j < |s| - 1 && s[j] == '.';
    CountOne(s, '@', i);
    var a, b, c := s[..i], s[i + 1..j], s[j + 1..];
    assert s == a + "@" + b + "." + c;
    assert IsEmailSegment(a) && IsEmailSegment(b) && IsEmailSegment(c);
  }

  /** A string the pattern matches has the shape: the `@` and the `.` sit between non-empty runs. */
  lemma PatternGivesShape(s: string, a: string, b: string, c: string)
    requires IsEmailSegment(a) && IsEmailSegment(b) && IsEmailSegment(c)
    requires s == a + "@" + b + "." + c
    ensures HasEmailShape(s)
  {
    var i, j := |a|, |a| + 1 + |b|;
    assert s[i] == '@' && s[j] == '.';
    forall k | 0 <= k < |s| && k != i
      ensures s[k] != '@' && !IsJsWhitespace(s[k])
    {
      if k < i {
        assert s[k] == a[k];
      } else if k < j {
        assert s[k] == b[k - i - 1];
      } else if k > j {
        assert s[k] == c[k - j - 1];
      }
    }
    assert Count(s, '@') == 1 by {
      CountOne(s, '@', i);
    }
  }

  // ---------------------------------------------------------------- birth date

  /** `value === undefined || value === null || value === ""`. */
  predicate IsMissing(value: Value) {
    value == Undefined || value == Null || value == Str("")
  }

  /**
   * `validateBirthDate`: presence first, then the date parse, then the age on
   * `today` must lie in [0, 120]. `parsed` is what `new Date(value)` yields:
   * `None` when its time value is NaN. Returns the parsed date.
   */
  function ValidateBirthDate(value: Value, parsed: Option<Date>, today: Date)
    : (r: Result<Date, ValidationError>)
    ensures r.Success? ==> !IsMissing(value) && parsed == Some(r.value)
    ensures IsMissing(value) ==> r == Failure(BirthDateRequired)
    ensures !IsMissing(value) && parsed.None? ==> r == Failure(InvalidBirthDate)
    ensures !IsMissing(value) && parsed.Some? ==>
              (r.Success? <==> 0 <= CalculateAge(parsed.value, today) <= 120)
              && (r.Success? ==> r.value == parsed.value)
              && (r.Failure? ==> r.error == AgeOutOfRange)
  {
    if IsMissing(value) then Failure(BirthDateRequired)
    else match parsed
      case None => Failure(InvalidBirthDate)
      case Some(date) =>
        var age := InlineAge(date, today);
        AgesAgree(date, today);
        if age < 0 || age > 120 then Failure(AgeOutOfRange) else Success(date)
  }

  /** Born 120 years ago today: accepted. Born 121 years ago today: rejected. */
  lemma BirthDateBoundary(value: Value, parsed: Option<Date>, today: Date)
    requires !IsMissing(value) && parsed.Some?
    ensures parsed.value == Date(today.year - 120, today.month, today.day)
            ==> ValidateBirthDate(value, parsed, today).Success?
    ensures parsed.value == Date(today.year - 121, today.month, today.day)
            ==> ValidateBirthDate(value, parsed, today) == Failure(AgeOutOfRange)
  {
    var d := parsed.value;
    if d.month == today.month && d.day == today.day {
      AgeOnBirthday(d, today);
    }
  }

  // ---------------------------------------------------------------- height and weight

  /** `validateHeight`: a number that is not NaN, then 30 <= value <= 200; returns it unchanged. */
  function ValidateHeight(value: Value): (r: Result<real, ValidationError>)
    ensures r.Success? <==> value.Number? && value.n.Finite? && 30.0 <= value.n.x <= 200.0
    ensures r.Success? ==> r.value == value.n.x
    ensures !value.Number? || value.n.NaN? ==> r == Failure(HeightNotNumber)
    ensures value.Number? && !value.n.NaN? && r.Failure? ==> r.error == HeightOutOfRange
  {
    if !value.Number? || value.n.NaN? then Failure(HeightNotNumber)
    else if Below(value.n, 30.0) || Above(value.n, 200.0) then Failure(HeightOutOfRange)
    else Success(value.n.x)
  }

  /** `validateWeight`: a number that is not NaN, then 1 <= value <= 200; returns it unchanged. */
  function ValidateWeight(value: Value): (r: Result<real, ValidationError>)
    ensures r.Success? <==> value.Number? && value.n.Finite? && 1.0 <= value.n.x <= 200.0
    ensures r.Success? ==> r.value == value.n.x
    ensures !value.Number? || value.n.NaN? ==> r == Failure(WeightNotNumber)
    ensures value.Number? && !value.n.NaN? && r.Failure? ==> r.error == WeightOutOfRange
  {
    if !value.Number? || value.n.NaN? then Failure(WeightNotNumber)
    else if Below(value.n, 1.0) || Above(value.n, 200.0) then Failure(WeightOutOfRange)
    else Success(value.n.x)
  }
}
