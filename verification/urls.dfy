/**
 URLs at the level the generator sees them: the parts net/url keeps apart,
 with the query already decoded into Go's url.Values (key to list of values).
 Parsing and printing are left to an oracle codec.
 */
module Urls {
  import opened Results

  /** url.Values: each query key with its values in the order they appeared. */
  type Values = map<string, seq<string>>

  /** A parsed URL; `query` is what URL.Query() decodes from the raw query. */
  datatype Url = Url(scheme: string, authority: string, path: string, query: Values, fragment: string)

  /**
   The net/url behaviour the generator depends on: url.Parse followed by
   URL.Query() (None when parsing fails), and URL.String() after the query
   was re-encoded with Values.Encode().
   */
  datatype UrlCodec = UrlCodec(parse: string -> Option<Url>, format: Url -> string)

  /** What url.ParseQuery builds: every key present carries at least one value. */
  predicate WellFormedQuery(q: Values) {
    forall k :: k in q ==> |q[k]| > 0
  }

  /** `order` visits every key of `keys` exactly once, as a Go `range` over the map does. */
  predicate IsEnumeration(order: seq<string>, keys: set<string>) {
    && (forall i, j :: 0 <= i < j < |order| ==> order[i] != order[j])
    && (forall i :: 0 <= i < |order| ==> order[i] in keys)
    && (forall k :: k in keys ==> k in order)
  }

  /** An enumeration lists as many keys as there are. */
  lemma {:induction false} EnumerationSize(order: seq<string>, keys: set<string>)
    requires IsEnumeration(order, keys)
    ensures |order| == |keys|
    decreases |order|
  {
    if |order| == 0 {
      assert keys == {};
    } else {
      var last := order[|order| - 1];
      var front := order[..|order| - 1];
      assert IsEnumeration(front, keys - {last}) by {
        forall k | k in keys - {last} ensures k in front {
          var i :| 0 <= i < |order| && order[i] == k;
          assert i != |order| - 1;
          assert front[i] == k;
        }
      }
      EnumerationSize(front, keys - {last});
    }
  }

  /**
   The query GenerateTargetURLs builds for `key`: `key` is Set to the single
   value `payload`; every other key is Added back value by value, so it keeps
   its list in order, and a key with no values is not re-created.
   */
  function ReplaceValue(q: Values, key: string, payload: string): (q': Values)
    requires key in q
    ensures key in q' && q'[key] == [payload]
    ensures forall k :: k != key ==> (k in q' <==> k in q && |q[k]| > 0)
    ensures forall k :: k in q' && k != key ==> q'[k] == q[k]
    ensures WellFormedQuery(q) ==> q'.Keys == q.Keys && WellFormedQuery(q')
  {
    map k | k in q && (k == key || |q[k]| > 0) :: if k == key then [payload] else q[k]
  }

  /** `v` is `u` with only the value of `key` replaced by `payload`. */
  ghost predicate InjectedAt(u: Url, v: Url, key: string, payload: string) {
    && v == u.(query := v.query)
    && v.query.Keys == u.query.Keys
    && key in v.query && v.query[key] == [payload]
    && forall k :: k in u.query && k != key ==> v.query[k] == u.query[k]
  }

  /** The URL copy with the rebuilt query: every non-query part is carried over. */
  function Inject(u: Url, key: string, payload: string): (v: Url)
    requires key in u.query
    ensures WellFormedQuery(u.query) ==> InjectedAt(u, v, key, payload)
  {
    u.(query := ReplaceValue(u.query, key, payload))
  }
}
