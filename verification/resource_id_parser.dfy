/** `ResourceIdParser`: the resource service's id parser with set semantics. */
module ResourceIdParser {
  import opened Wrappers
  import opened JavaText
  import opened Numerals
  import opened ResourceErrors

  const MaxCsvLength := 200

  /** Full match of `[1-9]\d*` (`\d` is ASCII-only without UNICODE_CHARACTER_CLASS). */
  predicate MatchesPositiveId(s: string) {
    |s| >= 1 && AllDigits(s) && s[0] != '0'
  }

  function InvalidIdMessage(id: string): string {
    "Invalid ID format: '" + id + "'. Only positive integers are allowed"
  }

  const MissingIdsMessage := "At least one resource ID must be provided"

  function TooLongMessage(length: nat): string {
    "CSV string is too long: received " + Decimal(length) + " characters, maximum allowed is 200"
  }

  /** `parsePositiveId`: the pattern check, then `Long.parseLong`, whose overflow
      is reported with the same message. A success is the value whose canonical
      decimal form is exactly the token. */
  function ParsePositiveId(id: string): (r: Result<int, ResourceException>)
    ensures r.Success? <==> MatchesPositiveId(id) && Value(id) <= LongMax
    ensures r.Success? ==> 1 <= r.value <= LongMax && Decimal(r.value) == id
    ensures r.Failure? ==> r.error == InvalidResourceId(InvalidIdMessage(id))
  {
    if !MatchesPositiveId(id) then Failure(InvalidResourceId(InvalidIdMessage(id)))
    else
      var v := Value(id);
      if v > LongMax then Failure(InvalidResourceId(InvalidIdMessage(id)))
      else
        LeadingDigitBoundsValue(id);
        DecimalOfValue(id);
        Success(v)
  }

  /** Every id of the canonical decimal form parses back to itself. */
  lemma ParseDecimal(n: int)
    requires 1 <= n <= LongMax
    ensures ParsePositiveId(Decimal(n)) == Success(n)
  {
    ValueOfDecimal(n);
  }

  /** The non-empty trimmed forms of the fields, as a set. */
  function TrimmedFields(xs: seq<string>): set<string> {
    set x | x in xs && Trim(x) != "" :: Trim(x)
  }

  lemma TrimmedFieldsOfCons(xs: seq<string>)
    requires |xs| > 0
    ensures TrimmedFields(xs) == (if Trim(xs[0]) == "" then {} else {Trim(xs[0])}) + TrimmedFields(xs[1..])
  {
    assert xs == [xs[0]] + xs[1..];
  }

  /** The trimmed fields, empty ones dropped. */
  function NonEmptyTrimmed(xs: seq<string>): (r: seq<string>)
    ensures forall t :: t in r ==> t != ""
    ensures (set t | t in r) == TrimmedFields(xs)
  {
    if |xs| == 0 then []
    else
      var t := Trim(xs[0]);
      var rest := NonEmptyTrimmed(xs[1..]);
      TrimmedFieldsOfCons(xs);
      if t == "" then rest
      else
        assert (set u | u in [t] + rest) == {t} + (set u | u in rest);
        [t] + rest
  }

  /** `e` is the error of the first token that does not parse. */
  predicate FirstFailure(tokens: seq<string>, e: ResourceException) {
    exists i :: 0 <= i < |tokens| && ParsePositiveId(tokens[i]) == Failure(e) &&
      forall j :: 0 <= j < i ==> ParsePositiveId(tokens[j]).Success?
  }

  /** Parses the tokens in order; the first bad one raises. */
  function ParseAll(tokens: seq<string>): (r: Result<set<int>, ResourceException>)
    ensures r.Success? <==> forall t :: t in tokens ==> ParsePositiveId(t).Success?
    ensures r.Success? ==> r.value == set t | t in tokens && ParsePositiveId(t).Success? :: ParsePositiveId(t).value
    ensures r.Failure? ==> FirstFailure(tokens, r.error)
  {
    if |tokens| == 0 then Success({})
    else
      var head := ParsePositiveId(tokens[0]);
      assert tokens == [tokens[0]] + tokens[1..];
      if head.Failure? then Failure(head.error)
      else
        var rest := ParseAll(tokens[1..]);
        if rest.Failure? then
          var i :| 0 <= i < |tokens[1..]| && ParsePositiveId(tokens[1..][i]) == Failure(rest.error) &&
                   forall j :: 0 <= j < i ==> ParsePositiveId(tokens[1..][j]).Success?;
          assert ParsePositiveId(tokens[i + 1]) == Failure(rest.error);
          assert forall j :: 0 <= j < i + 1 ==> ParsePositiveId(tokens[j]).Success? by {
            forall j | 0 <= j < i + 1 ensures ParsePositiveId(tokens[j]).Success? {
              if j > 0 { assert tokens[j] == tokens[1..][j - 1]; }
            }
          }
          rest
        else Success({head.value} + rest.value)
  }

  /** `parsePositiveIds`: null or blank input and input over 200 characters are
      CSV errors; otherwise the non-empty trimmed fields are parsed in order,
      the first bad one raising (the `distinct` step cannot change the
      outcome: a repeated token parses the same as its first occurrence). The
      result is the set of the tokens' values. */
  function ParsePositiveIds(csv: Option<string>): (r: Result<set<int>, ResourceException>)
    ensures (csv.None? || IsBlank(csv.value)) ==> r == Failure(InvalidCsv(MissingIdsMessage))
    ensures csv.Some? && !IsBlank(csv.value) && |csv.value| > MaxCsvLength ==> r == Failure(InvalidCsv(TooLongMessage(|csv.value|)))
    ensures r.Success? ==> csv.Some? && |csv.value| <= MaxCsvLength
    ensures csv.Some? && !IsBlank(csv.value) && |csv.value| <= MaxCsvLength ==>
              (r.Success? <==> forall t :: t in NonEmptyTrimmed(Split(csv.value)) ==> ParsePositiveId(t).Success?)
    ensures r.Success? ==> r.value == set t | t in NonEmptyTrimmed(Split(csv.value)) && ParsePositiveId(t).Success?
                                              :: ParsePositiveId(t).value
    ensures r.Success? ==> forall x :: x in r.value ==> 1 <= x <= LongMax && Decimal(x) in NonEmptyTrimmed(Split(csv.value))
    ensures csv.Some? && !IsBlank(csv.value) && |csv.value| <= MaxCsvLength && r.Failure? ==>
              FirstFailure(NonEmptyTrimmed(Split(csv.value)), r.error)
  {
    if csv.None? || IsBlank(csv.value) then Failure(InvalidCsv(MissingIdsMessage))
    else if |csv.value| > MaxCsvLength then Failure(InvalidCsv(TooLongMessage(|csv.value|)))
    else ParseAll(NonEmptyTrimmed(Split(csv.value)))
  }

  /** A CSV of commas only holds no ids and is not an error. */
  lemma CommasOnlyIsEmpty()
    ensures ParsePositiveIds(Some(",,,")) == Success({})
  {
    var s := ",,,";
    SplitCommasOnly();
    assert !IsBlank(s) by { assert !IsWhitespace(s[0]); }
  }

  lemma SplitCommasOnly()
    ensures Split(",,,") == []
  {
    var s := ",,,";
    assert IndexOf(s, ',') == 0;
    assert Fields(s[3..]) == [""];
    assert Fields(s[2..]) == [""] + [""];
    assert Fields(s[1..]) == [""] + ["", ""];
    assert Fields(s) == ["", "", "", ""];
    assert DropTrailingEmpty(["", "", "", ""]) == [];
  }

  /** Zero, a leading zero, a sign and a decimal point are all rejected. */
  lemma NonCanonicalTokensRejected()
    ensures ParsePositiveId("0").Failure?
    ensures ParsePositiveId("01").Failure?
    ensures ParsePositiveId("-1").Failure?
    ensures ParsePositiveId("1.5").Failure?
  {
    assert !IsDigit("1.5"[1]);
  }
}
