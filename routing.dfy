/**
 * The fetch handler's routing decision: leave the request to the browser,
 * answer it network-first, or answer it cache-first.
 */
module Routing {
  import opened Net
  import opened Keys

  /** A content fingerprint from the resource table. */
  type Hash = string

  /** The resource table: resource path to content fingerprint. */
  type Table = map<Path, Hash>

  /** The truthiness of `RESOURCES[key]`: the key is listed with a non-empty fingerprint. */
  predicate Known(resources: Table, key: Path)
    ensures Known(resources, key) ==> key in resources
    ensures key in resources && resources[key] != "" ==> Known(resources, key)
  {
    key in resources && resources[key] != ""
  }

  /** Every fingerprint is non-empty and no path is the empty string, as the build tool emits them. */
  ghost predicate WellFormed(resources: Table) {
    forall p :: p in resources ==> p != "" && resources[p] != ""
  }

  datatype Route =
    | PassThrough   // the handler returns without responding; the browser fetches as usual
    | NetworkFirst  // `onlineFirst`
    | CacheFirst    // the cache, else the network with lazy population

  /** The route the fetch handler chooses for a request. */
  function RouteOf(requestMethod: string, url: Url, origin: Url, resources: Table): (r: Route)
    ensures requestMethod != "GET" ==> r == PassThrough
    ensures r == PassThrough <==> requestMethod != "GET" || !Known(resources, FetchKey(url, origin))
    ensures r == NetworkFirst <==> requestMethod == "GET" && FetchKey(url, origin) == Root && Known(resources, Root)
    ensures r == CacheFirst ==> FetchKey(url, origin) in resources && FetchKey(url, origin) != Root
  {
    if requestMethod != "GET" then PassThrough
    else
      var key := FetchKey(url, origin);
      if !Known(resources, key) then PassThrough
      else if key == Root then NetworkFirst
      else CacheFirst
  }

  /** With a well-formed table the truthiness test is plain membership. */
  lemma KnownIsMembership(resources: Table, key: Path)
    requires WellFormed(resources)
    ensures Known(resources, key) <==> key in resources
  {
  }

  /**
   * Every GET for the entry page, in any of the forms that normalise to the
   * root sentinel, is answered network-first when "/" is a listed resource.
   */
  lemma EntryPageIsNetworkFirst(origin: Url, resources: Table, v: string, fragment: string)
    requires WellFormed(resources) && Root in resources
    ensures RouteOf("GET", origin, origin, resources) == NetworkFirst
    ensures RouteOf("GET", origin + "/", origin, resources) == NetworkFirst
    ensures RouteOf("GET", origin + "/" + VersionQuery + v, origin, resources) == NetworkFirst
    ensures RouteOf("GET", origin + "/#" + fragment, origin, resources) == NetworkFirst
  {
    RootForms(origin, v, fragment);
  }

  /**
   * A GET for a listed resource other than "/" is answered cache-first, and a
   * "?v=" version query on its URL does not change that.
   */
  lemma ListedResourceIsCacheFirst(origin: Url, resources: Table, p: Path, v: string)
    requires WellFormed(resources) && p in resources && p != Root
    requires p[0] != '#' && !Contains(p, VersionQuery)
    ensures RouteOf("GET", UrlOf(origin, p), origin, resources) == CacheFirst
    ensures RouteOf("GET", UrlOf(origin, p) + VersionQuery + v, origin, resources) == CacheFirst
  {
    FetchKeyOfUrl(origin, p, v);
  }

  /** A GET whose key is not listed is never intercepted, whatever else the URL holds. */
  lemma UnlistedIsPassThrough(origin: Url, resources: Table, url: Url)
    requires FetchKey(url, origin) !in resources
    ensures RouteOf("GET", url, origin, resources) == PassThrough
  {
  }
}
