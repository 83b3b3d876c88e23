/** The publisher's text for a failed delivery (`extractDetailedError`,
    `truncate`) and its conflict test (`isConflict409`). */
module FailureDetail {
  import opened Wrappers
  import opened JavaText
  import opened Numerals
  import opened Downstream

  const UnknownError := "Unknown error"
  const TruncationMarker := "... (truncated)"

  /** The limit the publisher passes to `truncate`. */
  const MaxDetailLength := 2000

  /** `truncate` as written: null or blank text becomes "Unknown error"; text
      longer than the limit keeps its first `maxLength` characters and gets the
      marker appended, so the result can exceed the limit by 15. */
  function Truncate(text: Option<string>, maxLength: nat): (r: string)
    ensures !IsBlank(r)
    ensures |r| <= maxLength + |TruncationMarker|
    ensures (text.None? || IsBlank(text.value)) ==> r == UnknownError
    ensures text.Some? && !IsBlank(text.value) && |text.value| <= maxLength ==> r == text.value
    ensures text.Some? && !IsBlank(text.value) && |text.value| > maxLength ==>
              && |r| == maxLength + |TruncationMarker|
              && StartsWith(r, text.value[..maxLength]) && EndsWith(r, TruncationMarker)
  {
    if text.None? || IsBlank(text.value) then
      assert !IsWhitespace(UnknownError[0]);
      UnknownError
    else if |text.value| > maxLength then
      var r := text.value[..maxLength] + TruncationMarker;
      assert !IsWhitespace(r[maxLength]);
      assert r[..maxLength] == text.value[..maxLength];
      assert r[|r| - |TruncationMarker|..] == TruncationMarker;
      r
    else text.value
  }

  /** `truncate` as evidently intended: the marker fits inside the limit, so
      the result never exceeds it. Text within the limit is treated exactly as
      `truncate` treats it. */
  function TruncateFitted(text: Option<string>, maxLength: nat): (r: string)
    requires maxLength >= |TruncationMarker|
    ensures !IsBlank(r) && |r| <= maxLength
    ensures (text.None? || IsBlank(text.value) || |text.value| <= maxLength) ==> r == Truncate(text, maxLength)
    ensures text.Some? && !IsBlank(text.value) && |text.value| > maxLength ==>
              && |r| == maxLength
              && StartsWith(r, text.value[..maxLength - |TruncationMarker|]) && EndsWith(r, TruncationMarker)
  {
    if text.None? || IsBlank(text.value) then
      assert !IsWhitespace(UnknownError[0]);
      UnknownError
    else if |text.value| > maxLength then
      var keep := maxLength - |TruncationMarker|;
      var r := text.value[..keep] + TruncationMarker;
      assert !IsWhitespace(r[keep]);
      assert r[..keep] == text.value[..keep];
      assert r[|r| - |TruncationMarker|..] == TruncationMarker;
      r
    else text.value
  }

  /** `"HTTP " + status + " - " + text`, with the response body as the text
      unless it is blank, the status text then. */
  function HttpDetail(h: Cause): (r: string)
    requires h.Http?
    ensures StartsWith(r, "HTTP " + JavaDecimal(h.code) + " - ")
    ensures r[|"HTTP " + JavaDecimal(h.code) + " - "|..] == if !IsBlank(h.body) then h.body else h.statusText
  {
    var prefix := "HTTP " + JavaDecimal(h.code) + " - ";
    var r := prefix + (if !IsBlank(h.body) then h.body else h.statusText);
    assert r[..|prefix|] == prefix;
    r
  }

  /** The untruncated detail: the first HTTP failure anywhere in the chain;
      failing that, a connection failure, looked for only at the top; failing
      that, the top exception's message, or its class name when it has none. */
  function RawDetail(th: Thrown): (r: string)
    ensures FirstHttp(Chain(th)).Some? ==> r == HttpDetail(Chain(th)[FirstHttp(Chain(th)).value])
    ensures FirstHttp(Chain(th)).None? && th.top.Connection? ==>
              StartsWith(r, "Connection error: ") && r[|"Connection error: "|..] == Show(th.top.message)
    ensures FirstHttp(Chain(th)).None? && th.top.Other? ==>
              r == (if th.top.message.Some? then th.top.message.value else th.top.kind)
  {
    match FirstHttp(Chain(th))
    case Some(i) => HttpDetail(Chain(th)[i])
    case None =>
      match th.top
      case Connection(message) =>
        var prefix := "Connection error: ";
        assert (prefix + Show(message))[..|prefix|] == prefix;
        prefix + Show(message)
      case Other(kind, message) => if message.Some? then message.value else kind
      case Http(_, _, _) => ""
  }

  /** An HTTP failure at the top is the one `findCause` finds. */
  lemma HttpAtTop(th: Thrown)
    requires th.top.Http?
    ensures FirstHttp(Chain(th)) == Some(0)
    ensures RawDetail(th) == HttpDetail(th.top)
  {
  }

  /** `extractDetailedError` as written. */
  function ExtractDetailedError(th: Thrown): (r: string)
    ensures !IsBlank(r) && |r| <= MaxDetailLength + |TruncationMarker|
    ensures !IsBlank(RawDetail(th)) && |RawDetail(th)| <= MaxDetailLength ==> r == RawDetail(th)
  {
    Truncate(Some(RawDetail(th)), MaxDetailLength)
  }

  /** `extractDetailedError` with the fitted truncation: the detail the rest of
      the model records. */
  function DetailedError(th: Thrown): (r: string)
    ensures !IsBlank(r) && |r| <= MaxDetailLength
    ensures |RawDetail(th)| <= MaxDetailLength ==> r == ExtractDetailedError(th)
  {
    TruncateFitted(Some(RawDetail(th)), MaxDetailLength)
  }

  /** A detail `truncate` cuts: not blank, and longer than the limit. */
  predicate Overflows(th: Thrown) {
    !IsBlank(RawDetail(th)) && |RawDetail(th)| > MaxDetailLength
  }

  /** A detail over the limit comes out of `extractDetailedError` 15
      characters longer than the limit. */
  lemma ExtractDetailedErrorOverflows(th: Thrown)
    requires Overflows(th)
    ensures |ExtractDetailedError(th)| == MaxDetailLength + 15
  {
  }

  /** An HTTP failure with a long response body is such a detail. */
  lemma LongHttpBodyOverflows(code: int, body: string, statusText: string, causes: seq<Cause>)
    requires !IsBlank(body) && |body| >= MaxDetailLength
    ensures |ExtractDetailedError(Thrown(Http(code, body, statusText), causes))| == MaxDetailLength + 15
  {
    var th := Thrown(Http(code, body, statusText), causes);
    assert FirstHttp(Chain(th)) == Some(0);
    assert |RawDetail(th)| > MaxDetailLength;
  }

  /** `isConflict409`: the first HTTP failure in the chain has status 409. */
  predicate IsConflict409(th: Thrown) {
    var i := FirstHttp(Chain(th));
    i.Some? && Chain(th)[i.value].code == 409
  }

  /** A failure wrapped by a non-HTTP exception is a conflict exactly when the
      original is, and has the same HTTP detail. */
  lemma WrapKeepsHttp(outer: Cause, th: Thrown)
    requires !outer.Http?
    ensures IsConflict409(Wrap(outer, th)) <==> IsConflict409(th)
    ensures FirstHttp(Chain(th)).Some? ==> RawDetail(Wrap(outer, th)) == RawDetail(th)
  {
    FirstHttpOfWrap(outer, th);
  }

  /** Through a client that wraps every failure in its own exception with a
      message, the detail is the HTTP detail if there is one and the client's
      message otherwise; the "Connection error" text never appears. */
  lemma WrappedDetail(message: string, th: Thrown)
    ensures FirstHttp(Chain(th)).Some? ==> RawDetail(Wrap(Other("SongServiceException", Some(message)), th)) == RawDetail(th)
    ensures FirstHttp(Chain(th)).None? ==> RawDetail(Wrap(Other("SongServiceException", Some(message)), th)) == message
  {
    FirstHttpOfWrap(Other("SongServiceException", Some(message)), th);
  }
}
