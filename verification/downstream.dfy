/** Failures of calls to the song service, as the publisher inspects them: an
    exception and its chain of causes. */
module Downstream {
  import opened Wrappers

  /** One exception of a chain. */
  datatype Cause =
      /** `HttpStatusCodeException`: status code, response body (never null,
          possibly empty) and status text. */
    | Http(code: int, body: string, statusText: string)
      /** `ResourceAccessException`: an I/O failure, message possibly null. */
    | Connection(message: Option<string>)
      /** Any other exception: its simple class name and its message. */
    | Other(kind: string, message: Option<string>)

  /** A thrown exception: the top-level one and its causes, outermost first. */
  datatype Thrown = Thrown(top: Cause, causes: seq<Cause>)

  /** What a call to the song service did. */
  datatype Outcome = Delivered | Raised(thrown: Thrown)

  function Chain(th: Thrown): seq<Cause> {
    [th.top] + th.causes
  }

  /** `findCause(ex, HttpStatusCodeException.class)`: the position of the first
      HTTP failure walking down the causes. */
  function FirstHttp(chain: seq<Cause>): (r: Option<nat>)
    ensures r.Some? ==> r.value < |chain| && chain[r.value].Http?
    ensures r.Some? ==> forall j :: 0 <= j < r.value ==> !chain[j].Http?
    ensures r.None? <==> forall j :: 0 <= j < |chain| ==> !chain[j].Http?
  {
    if |chain| == 0 then None
    else if chain[0].Http? then Some(0)
    else
      match FirstHttp(chain[1..])
      case None => None
      case Some(i) => Some(i + 1)
  }

  /** `new X(message, ex)`: `ex` becomes the cause of a new top exception. */
  function Wrap(outer: Cause, th: Thrown): (r: Thrown)
    ensures Chain(r) == [outer] + Chain(th)
  {
    Thrown(outer, Chain(th))
  }

  /** Wrapping in a non-HTTP exception does not change which HTTP failure the
      walk finds. */
  lemma FirstHttpOfWrap(outer: Cause, th: Thrown)
    requires !outer.Http?
    ensures FirstHttp(Chain(Wrap(outer, th))).Some? <==> FirstHttp(Chain(th)).Some?
    ensures FirstHttp(Chain(th)).Some? ==>
              Chain(Wrap(outer, th))[FirstHttp(Chain(Wrap(outer, th))).value] == Chain(th)[FirstHttp(Chain(th)).value]
  {
    FirstHttpOfCons(outer, Chain(th));
  }

  /** A non-HTTP cause in front shifts the position found by one. */
  lemma FirstHttpOfCons(x: Cause, rest: seq<Cause>)
    requires !x.Http?
    ensures FirstHttp([x] + rest) == if FirstHttp(rest).Some? then Some(FirstHttp(rest).value + 1) else None
  {
    assert ([x] + rest)[1..] == rest;
  }
}
