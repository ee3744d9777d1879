/**
 The two ways a candidate URL is fetched (a plain HTTP GET and a headless
 browser render), both as oracles, and reflection detection on one base
 URL: the static fetch first, the render only as a fallback.
 */
module Fetch {
  import opened Results
  import opened Reflection

  /** Which fetcher produced a body. */
  datatype Channel = Static | Rendered

  /** One network or browser request the pipeline makes, in the order it makes them. */
  datatype Call = Call(channel: Channel, url: string)

  /** A transport, read, navigation or deadline failure; its cause is not modelled. */
  datatype FetchError = FetchError

  /**
   The body of a GET with the configured client, and the outer HTML of the
   page after a headless browser navigated to the URL and waited.
   */
  datatype Fetchers = Fetchers(fetch: string -> Result<string, FetchError>, render: string -> Result<string, FetchError>)

  /** Fetch `url` through `channel`. */
  function Get(f: Fetchers, channel: Channel, url: string): Result<string, FetchError> {
    match channel
    case Static => f.fetch(url)
    case Rendered => f.render(url)
  }

  /** Where detection ended: a failed fetch, no reflection, or reflection through a channel. */
  datatype Detection = Detection(outcome: Result<Option<Channel>, FetchError>, calls: seq<Call>)

  /**
   Reflection detection on `base`. The render is requested only when the
   static body came back without the marker; a failed fetch or render ends
   detection; the channel that showed the marker is the one reported.
   */
  function Detect(f: Fetchers, base: string): (d: Detection)
    ensures |d.calls| >= 1 && d.calls[0] == Call(Static, base)
    ensures (Call(Rendered, base) in d.calls) <==> f.fetch(base).Success? && !Reflected(f.fetch(base).value)
    ensures d.calls == [Call(Static, base)] || d.calls == [Call(Static, base), Call(Rendered, base)]
    ensures d.outcome.Failure? <==>
              || f.fetch(base).Failure?
              || (!Reflected(f.fetch(base).value) && f.render(base).Failure?)
    ensures d.outcome == Success(Some(Static)) <==> f.fetch(base).Success? && Reflected(f.fetch(base).value)
    ensures d.outcome == Success(Some(Rendered)) <==>
              && f.fetch(base).Success? && !Reflected(f.fetch(base).value)
              && f.render(base).Success? && Reflected(f.render(base).value)
  {
    match f.fetch(base)
    case Failure(e) => Detection(Failure(e), [Call(Static, base)])
    case Success(body) =>
      if Reflected(body) then
        Detection(Success(Some(Static)), [Call(Static, base)])
      else
        match f.render(base)
        case Failure(e) => Detection(Failure(e), [Call(Static, base), Call(Rendered, base)])
        case Success(dom) =>
          Detection(Success(if Reflected(dom) then Some(Rendered) else None), [Call(Static, base), Call(Rendered, base)])
  }
}
