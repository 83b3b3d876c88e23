/** The parts of `java.lang.String` the services rely on, with Java's exact
    edge cases: `isBlank`, `trim`, `split(",")`, `String.join`, `contains`,
    `endsWith` and `toLowerCase` on ASCII letters. */
module JavaText {
  import opened Wrappers

  /** Java's string conversion of a possibly-null value. */
  function Show(v: Option<string>): string {
    if v.Some? then v.value else "null"
  }

  /** `Character.isWhitespace`: the ASCII controls TAB..CR and FS..US, and the
      Unicode space, line and paragraph separators other than the no-break spaces
      U+00A0, U+2007 and U+202F. */
  predicate IsWhitespace(c: char) {
    var n := c as int;
    || (0x09 <= n <= 0x0D)
    || (0x1C <= n <= 0x20)
    || n == 0x1680
    || (0x2000 <= n <= 0x2006)
    || (0x2008 <= n <= 0x200A)
    || n == 0x2028 || n == 0x2029 || n == 0x205F || n == 0x3000
  }

  /** `String.isBlank`: empty, or whitespace only. */
  predicate IsBlank(s: string) {
    forall i :: 0 <= i < |s| ==> IsWhitespace(s[i])
  }

  /** The characters `String.trim` removes: every code point up to U+0020. */
  predicate IsTrimmed(c: char) {
    c <= ' '
  }

  /** Number of leading characters `trim` removes. */
  function LeadingTrimmed(s: string): (n: nat)
    ensures n <= |s|
    ensures forall i :: 0 <= i < n ==> IsTrimmed(s[i])
    ensures n < |s| ==> !IsTrimmed(s[n])
  {
    if |s| > 0 && IsTrimmed(s[0]) then 1 + LeadingTrimmed(s[1..]) else 0
  }

  function TrimRight(s: string): (r: string)
    ensures |r| <= |s| && r == s[..|r|]
    ensures forall i :: |r| <= i < |s| ==> IsTrimmed(s[i])
    ensures |r| > 0 ==> !IsTrimmed(r[|r| - 1])
  {
    if |s| > 0 && IsTrimmed(s[|s| - 1]) then TrimRight(s[..|s| - 1]) else s
  }

  /** `String.trim`: the infix left after cutting the characters up to U+0020
      from both ends; it neither starts nor ends with such a character. */
  function Trim(s: string): (r: string)
    ensures LeadingTrimmed(s) + |r| <= |s|
    ensures r == s[LeadingTrimmed(s)..LeadingTrimmed(s) + |r|]
    ensures forall j :: LeadingTrimmed(s) + |r| <= j < |s| ==> IsTrimmed(s[j])
    ensures |r| > 0 ==> !IsTrimmed(r[0]) && !IsTrimmed(r[|r| - 1])
  {
    TrimRight(s[LeadingTrimmed(s)..])
  }

  /** A string none of whose characters `trim` removes is its own trim. */
  lemma TrimOfSolid(s: string)
    requires forall i :: 0 <= i < |s| ==> !IsTrimmed(s[i])
    ensures Trim(s) == s
  {
  }

  /** Something survives `trim` when the first character is not cut. */
  lemma TrimOfSolidStart(s: string)
    requires |s| > 0 && !IsTrimmed(s[0])
    ensures |Trim(s)| > 0
  {
    assert LeadingTrimmed(s) == 0;
  }

  /** Position of the first `c` in `s`, or `|s|` when there is none. */
  function IndexOf(s: string, c: char): (i: nat)
    ensures i <= |s|
    ensures i < |s| ==> s[i] == c
    ensures forall j :: 0 <= j < i ==> s[j] != c
  {
    if |s| == 0 then 0 else if s[0] == c then 0 else 1 + IndexOf(s[1..], c)
  }

  /** Every comma-separated field of `s`, empty ones included. */
  function Fields(s: string): (r: seq<string>)
    ensures |r| >= 1
    ensures forall k :: 0 <= k < |r| ==> ',' !in r[k]
    decreases |s|
  {
    var i := IndexOf(s, ',');
    if i == |s| then [s] else [s[..i]] + Fields(s[i + 1..])
  }

  /** `String.join(sep, xs)`. */
  function Join(xs: seq<string>, sep: string): string {
    if |xs| == 0 then ""
    else if |xs| == 1 then xs[0]
    else xs[0] + sep + Join(xs[1..], sep)
  }

  /** Splitting and joining on commas are inverse to each other. */
  lemma {:induction false} JoinFields(s: string)
    ensures Join(Fields(s), ",") == s
    decreases |s|
  {
    var i := IndexOf(s, ',');
    if i < |s| {
      JoinFields(s[i + 1..]);
      assert s == s[..i] + "," + s[i + 1..];
    }
  }

  lemma {:induction false} FieldsOfJoin(xs: seq<string>)
    requires |xs| >= 1
    requires forall k :: 0 <= k < |xs| ==> ',' !in xs[k]
    ensures Fields(Join(xs, ",")) == xs
  {
    if |xs| >= 2 {
      var s := Join(xs, ",");
      var rest := Join(xs[1..], ",");
      assert s == xs[0] + "," + rest;
      assert s[|xs[0]|] == ',';
      assert forall j :: 0 <= j < |xs[0]| ==> s[j] == xs[0][j];
      assert IndexOf(s, ',') == |xs[0]|;
      assert s[..|xs[0]|] == xs[0];
      assert s[|xs[0]| + 1..] == rest;
      FieldsOfJoin(xs[1..]);
    }
  }

  /** Drops the empty strings at the end, as `String.split` does. */
  function DropTrailingEmpty(xs: seq<string>): (r: seq<string>)
    ensures |r| <= |xs| && r == xs[..|r|]
    ensures forall k :: |r| <= k < |xs| ==> xs[k] == ""
    ensures |r| > 0 ==> r[|r| - 1] != ""
  {
    if |xs| > 0 && xs[|xs| - 1] == "" then DropTrailingEmpty(xs[..|xs| - 1]) else xs
  }

  /** `s.split(",")`: when there is no comma the result is `[s]`, even for the
      empty string; otherwise every field, less the empty ones at the end
      (leading and interior empty fields are kept). */
  function Split(s: string): (r: seq<string>)
    ensures ',' !in s ==> r == [s]
    ensures ',' in s ==> r == DropTrailingEmpty(Fields(s))
  {
    if IndexOf(s, ',') == |s| then [s] else DropTrailingEmpty(Fields(s))
  }

  /** Joining comma-free fields whose last one is non-empty and splitting again
      gives the fields back. */
  lemma SplitOfJoin(xs: seq<string>)
    requires |xs| >= 1 && xs[|xs| - 1] != ""
    requires forall k :: 0 <= k < |xs| ==> ',' !in xs[k]
    ensures Split(Join(xs, ",")) == xs
  {
    FieldsOfJoin(xs);
  }

  predicate StartsWith(s: string, prefix: string) {
    |prefix| <= |s| && s[..|prefix|] == prefix
  }

  predicate EndsWith(s: string, suffix: string) {
    |suffix| <= |s| && s[|s| - |suffix|..] == suffix
  }

  /** `s.contains(sub)`. */
  predicate Contains(s: string, sub: string)
    decreases |s|
  {
    StartsWith(s, sub) || (|s| > 0 && Contains(s[1..], sub))
  }

  /** `sub` occurring at offset `k` is contained. */
  lemma {:induction false} ContainsAt(s: string, sub: string, k: nat)
    requires k + |sub| <= |s| && s[k..k + |sub|] == sub
    ensures Contains(s, sub)
    decreases k
  {
    if k > 0 {
      assert s[1..][k - 1..k - 1 + |sub|] == s[k..k + |sub|];
      ContainsAt(s[1..], sub, k - 1);
    }
  }

  /** A string lacking one of `sub`'s characters does not contain `sub`. */
  lemma {:induction false} AbsentCharNotContained(s: string, sub: string, c: char)
    requires c in sub && c !in s
    ensures !Contains(s, sub)
    decreases |s|
  {
    if |s| > 0 {
      AbsentCharNotContained(s[1..], sub, c);
    }
  }

  function ToLowerChar(c: char): char {
    if 'A' <= c <= 'Z' then (c as int + 32) as char else c
  }

  /** `toLowerCase` restricted to the ASCII letters. */
  function ToLower(s: string): (r: string)
    ensures |r| == |s|
    ensures forall i :: 0 <= i < |s| ==> r[i] == ToLowerChar(s[i])
  {
    seq(|s|, i requires 0 <= i < |s| => ToLowerChar(s[i]))
  }
}
