/**
 Injection-target generation (GenerateTargetURLs in pkg/utils/utils.go):
 the `{payload}` placeholder wins; otherwise one target per query key.
 */
module Targets {
  import opened Results
  import opened Text
  import opened Urls

  /** The literal injection point a URL may carry instead of query parameters. */
  const Placeholder: string := "{payload}"

  /** The two ways generation fails; they are reported differently. */
  datatype GenError = InvalidUrl | NoInjectionPoints

  /**
   `order` is the order in which Go's `range` visits the keys of the query
   parsed from `input` (Go leaves it unspecified; any enumeration is allowed).
   */
  predicate OrderFits(codec: UrlCodec, input: string, order: seq<string>) {
    codec.parse(input).Some? ==> IsEnumeration(order, codec.parse(input).value.query.Keys)
  }

  /**
   GenerateTargetURLs(input, payload), with the iteration order of this call
   made explicit. The placeholder test comes before any parsing.
   */
  function GenerateTargetUrls(input: string, payload: string, codec: UrlCodec, order: seq<string>)
    : (r: Result<seq<string>, GenError>)
    requires OrderFits(codec, input, order)
    ensures r.Success? ==> |r.value| >= 1
    ensures Contains(input, Placeholder) ==> r == Success([ReplaceAll(input, Placeholder, payload)])
    ensures r == Failure(InvalidUrl) <==> !Contains(input, Placeholder) && codec.parse(input).None?
    ensures r == Failure(NoInjectionPoints) <==>
              && !Contains(input, Placeholder)
              && codec.parse(input).Some?
              && |codec.parse(input).value.query| == 0
    ensures r.Success? && !Contains(input, Placeholder) ==>
              && codec.parse(input).Some?
              && |r.value| == |codec.parse(input).value.query| == |order|
              && forall i :: 0 <= i < |r.value| ==>
                   && order[i] in codec.parse(input).value.query
                   && r.value[i] == codec.format(Inject(codec.parse(input).value, order[i], payload))
  {
    if Contains(input, Placeholder) then
      Success([ReplaceAll(input, Placeholder, payload)])
    else
      match codec.parse(input)
      case None => Failure(InvalidUrl)
      case Some(u) =>
        if |u.query| == 0 then
          Failure(NoInjectionPoints)
        else
          EnumerationSize(order, u.query.Keys);
          Success(seq(|order|, i requires 0 <= i < |order| => codec.format(Inject(u, order[i], payload))))
  }

  /**
   Placeholder precedence: a URL carrying `{payload}` gets exactly one target
   even when it also has query parameters, and that target is the text
   between the placeholders rejoined around the payload.
   */
  lemma PlaceholderSingleTarget(input: string, payload: string, codec: UrlCodec, order: seq<string>)
    requires OrderFits(codec, input, order)
    requires Contains(input, Placeholder)
    ensures GenerateTargetUrls(input, payload, codec, order).Success?
    ensures |GenerateTargetUrls(input, payload, codec, order).value| == 1
    ensures GenerateTargetUrls(input, payload, codec, order).value[0] == Join(Split(input, Placeholder), payload)
    ensures forall k :: 0 <= k < |Split(input, Placeholder)| ==> !Contains(Split(input, Placeholder)[k], Placeholder)
  {
    ReplaceAllIsSplitJoin(input, Placeholder, payload);
  }

  /**
   Query fan-out: without a placeholder, a parsed URL with a non-empty
   query generates as many targets as query keys, and each key has exactly
   one target, the input URL with that key injected (see Inject for what
   that changes).
   */
  lemma FanOutOnePerKey(input: string, payload: string, codec: UrlCodec, order: seq<string>, u: Url)
    requires OrderFits(codec, input, order)
    requires !Contains(input, Placeholder)
    requires codec.parse(input) == Some(u) && |u.query| > 0
    ensures GenerateTargetUrls(input, payload, codec, order).Success?
    ensures |GenerateTargetUrls(input, payload, codec, order).value| == |u.query.Keys| == |order|
    ensures forall k :: k in u.query ==>
              exists i :: && 0 <= i < |order| && order[i] == k
                          && GenerateTargetUrls(input, payload, codec, order).value[i] == codec.format(Inject(u, k, payload))
  {
    forall k | k in u.query
      ensures exists i :: && 0 <= i < |order| && order[i] == k
                          && GenerateTargetUrls(input, payload, codec, order).value[i] == codec.format(Inject(u, k, payload))
    {
      KeyHasTarget(input, payload, codec, order, u, k);
    }
  }

  /** The target at the position where `order` visits `k` injects `k`. */
  lemma KeyHasTarget(input: string, payload: string, codec: UrlCodec, order: seq<string>, u: Url, k: string)
    requires OrderFits(codec, input, order)
    requires !Contains(input, Placeholder)
    requires codec.parse(input) == Some(u) && |u.query| > 0
    requires k in u.query
    ensures exists i :: 0 <= i < |order| && order[i] == k
                        && GenerateTargetUrls(input, payload, codec, order).value[i] == codec.format(Inject(u, k, payload))
  {
    var r := GenerateTargetUrls(input, payload, codec, order);
    assert k in order;
    var i :| 0 <= i < |order| && order[i] == k;
    assert r.value[i] == codec.format(Inject(u, order[i], payload));
  }
}
