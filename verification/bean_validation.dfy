/** The Jakarta Bean Validation constraints the two metadata DTOs use, as
    Hibernate Validator evaluates them. */
module BeanValidation {
  import opened Wrappers
  import opened JavaText
  import opened Numerals

  /** NotBlank: not null, and something is left after `trim`. */
  predicate NotBlank(v: Option<string>) {
    v.Some? && |Trim(v.value)| > 0
  }

  /** Size with maximum `n`: null is valid. */
  predicate SizeAtMost(v: Option<string>, n: nat) {
    v.None? || |v.value| <= n
  }

  /** Full match of `^(19|20)\d{2}$`. */
  predicate MatchesYear(s: string) {
    |s| == 4 && AllDigits(s) && ((s[0] == '1' && s[1] == '9') || (s[0] == '2' && s[1] == '0'))
  }

  /** Full match of `^\d{2}:[0-5]\d$`: two minute digits, seconds 00 to 59. */
  predicate MatchesTwoDigitMinutes(s: string) {
    |s| == 5 && IsDigit(s[0]) && IsDigit(s[1]) && s[2] == ':' && '0' <= s[3] <= '5' && IsDigit(s[4])
  }

  /** NotBlank and Size(max 100): name, artist, album. */
  predicate TextFieldOk(v: Option<string>) {
    NotBlank(v) && SizeAtMost(v, 100)
  }

  /** NotBlank and the pattern `^(19|20)\d{2}$`; the pattern alone would let null
      through, the NotBlank constraint does not. */
  predicate YearOk(v: Option<string>) {
    NotBlank(v) && (v.None? || MatchesYear(v.value))
  }

  /** NotBlank and the pattern `^\d{2}:[0-5]\d$`. */
  predicate DurationOk(v: Option<string>) {
    NotBlank(v) && (v.None? || MatchesTwoDigitMinutes(v.value))
  }

  lemma ValueOfFour(s: string)
    requires |s| == 4 && AllDigits(s)
    ensures Value(s) == 1000 * DigitValue(s[0]) + 100 * DigitValue(s[1]) + 10 * DigitValue(s[2]) + DigitValue(s[3])
  {
    assert s[..3][..2] == s[..2] && s[..2][..1] == s[..1] && s[..1][..0] == "";
    assert Value(s[..1]) == DigitValue(s[0]);
    assert Value(s[..2]) == 10 * DigitValue(s[0]) + DigitValue(s[1]);
    assert Value(s[..3]) == 100 * DigitValue(s[0]) + 10 * DigitValue(s[1]) + DigitValue(s[2]);
  }

  /** The year pattern is exactly "four digits, 1900 to 2099". */
  lemma YearPatternIsRange(s: string)
    ensures MatchesYear(s) <==> |s| == 4 && AllDigits(s) && 1900 <= Value(s) <= 2099
  {
    if |s| == 4 && AllDigits(s) {
      ValueOfFour(s);
    }
  }

  /** A value matching either pattern is never blank. */
  lemma PatternValuesAreNotBlank(s: string)
    requires MatchesYear(s) || MatchesTwoDigitMinutes(s)
    ensures NotBlank(Some(s))
  {
    assert IsDigit(s[0]);
    TrimOfSolidStart(s);
  }
}
