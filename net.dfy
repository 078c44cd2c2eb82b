/**
 * The platform the service worker runs on, reduced to values: stored and
 * fetched responses, the outcome of a network fetch, a named cache as a map
 * from request URL to response, and `Cache.addAll`.
 */
module Net {

  datatype Option<+T> = None | Some(value: T)

  /** An absolute request URL, as `Request.url` gives it. */
  type Url = string

  /** A response. Only its status is inspected by the worker; the body is opaque. */
  datatype Response = Response(status: int, body: string) {
    /** `Response.ok` of the Fetch standard: the status is in the range 200-299. */
    predicate Ok() { 200 <= status <= 299 }
  }

  /** The settled promise of a `fetch`: a response (of any status) or a network error. */
  datatype Outcome = Resolved(response: Response) | Rejected(error: string)

  /** The network as the worker sees it: what `fetch` would settle with, per URL. */
  type Network = Url -> Outcome

  /** A named cache of the Cache Storage API: request URL to stored response. */
  type Cache = map<Url, Response>

  /** A partial-content response, which the Cache API refuses to store. */
  const PartialContent: int := 206

  /** `Cache.addAll` accepts a fetch only when it resolves with an ok response other than 206. */
  predicate Accepts(net: Network, url: Url) {
    net(url).Resolved? && net(url).response.Ok() && net(url).response.status != PartialContent
  }

  /** No URL occurs twice in `urls`. */
  predicate NoRepeats(urls: seq<Url>) {
    forall i, j :: 0 <= i < j < |urls| ==> urls[i] != urls[j]
  }

  /**
   * `Cache.addAll(urls)`: fetch every URL and store all responses, or store
   * nothing and reject when any fetch fails or answers with a non-ok or
   * partial-content status, or when two requests of the batch match each
   * other.
   */
  function AddAll(cache: Cache, urls: seq<Url>, net: Network): (r: Option<Cache>)
    ensures r.Some? <==> NoRepeats(urls) && forall i :: 0 <= i < |urls| ==> Accepts(net, urls[i])
    ensures r.Some? ==> r.value.Keys == cache.Keys + set u | u in urls
    ensures r.Some? ==> forall u :: u in urls ==> r.value[u] == net(u).response && Accepts(net, u)
    ensures r.Some? ==> forall u :: u in cache && u !in urls ==> r.value[u] == cache[u]
    decreases |urls|
  {
    if urls == [] then Some(cache)
    else if !Accepts(net, urls[0]) || urls[0] in urls[1..] then None
    else AddAll(cache[urls[0] := net(urls[0]).response], urls[1..], net)
  }
}
