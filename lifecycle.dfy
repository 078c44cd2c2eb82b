/**
 * What each handler does to the caches, as functions of the caches before
 * it runs, together with the properties the worker relies on. The class in
 * module Worker performs the same updates in place and is proved against
 * these functions.
 */
module Lifecycle {
  import opened Net
  import opened Keys
  import opened Routing

  /** No path occurs twice in `s`. */
  ghost predicate Distinct(s: seq<Path>) {
    forall i, j :: 0 <= i < j < |s| ==> s[i] != s[j]
  }

  /** `Object.keys(RESOURCES)`: each path of the table once, in the table's order. */
  ghost predicate ListsTable(order: seq<Path>, resources: Table) {
    && Distinct(order)
    && (forall p :: p in order <==> p in resources)
  }

  /** The request URLs of a list of relative paths (`new Request(path)` for each). */
  function Urls(origin: Url, paths: seq<Path>): (r: seq<Url>)
    ensures |r| == |paths|
    ensures forall i :: 0 <= i < |paths| ==> r[i] == UrlOf(origin, paths[i])
  {
    seq(|paths|, i requires 0 <= i < |paths| => UrlOf(origin, paths[i]))
  }

  // ---------------------------------------------------------------------------
  // Install
  // ---------------------------------------------------------------------------

  /** A successful install has staged every core file, each with an ok response. */
  lemma InstallStagesCore(temp: Cache, origin: Url, core: seq<Path>, net: Network, staged: Cache)
    requires AddAll(temp, Urls(origin, core), net) == Some(staged)
    ensures forall p :: p in core ==> UrlOf(origin, p) in staged && staged[UrlOf(origin, p)].Ok()
    ensures forall u :: u in staged && u !in temp ==> exists p :: p in core && u == UrlOf(origin, p)
  {
  }

  /** Installing over an empty staging cache stages exactly the core files. */
  lemma CleanInstallStagesExactlyCore(origin: Url, core: seq<Path>, net: Network, staged: Cache)
    requires AddAll(map[], Urls(origin, core), net) == Some(staged)
    ensures staged.Keys == set p | p in core :: UrlOf(origin, p)
  {
  }

  // ---------------------------------------------------------------------------
  // Activate
  // ---------------------------------------------------------------------------

  /**
   * The negation of the eviction test of the activate handler: a content
   * entry stays when its key's fingerprint is truthy and equal to the saved
   * manifest's (an absent key reads as `undefined` there, which no string equals).
   */
  predicate Keeps(resources: Table, oldManifest: Table, key: Path)
    ensures Keeps(resources, oldManifest, key) ==>
      key in resources && key in oldManifest && resources[key] == oldManifest[key]
    ensures !Keeps(resources, oldManifest, key) && key in resources && resources[key] != "" ==>
      key !in oldManifest || oldManifest[key] != resources[key]
  {
    Known(resources, key) && key in oldManifest && oldManifest[key] == resources[key]
  }

  /** The content cache after the eviction loop of an upgrade. */
  function Retained(content: Cache, origin: Url, resources: Table, oldManifest: Table): (r: Cache)
    ensures r.Keys <= content.Keys
    ensures forall u :: u in r ==> r[u] == content[u]
  {
    map u | u in content && Keeps(resources, oldManifest, ActivationKey(u, origin)) :: content[u]
  }

  /** The content cache after a successful upgrade: the retained entries, then every staged entry put over them. */
  function Upgraded(content: Cache, temp: Cache, origin: Url, resources: Table, oldManifest: Table): (r: Cache)
    ensures r.Keys <= content.Keys + temp.Keys
    ensures temp.Keys <= r.Keys && forall u :: u in temp ==> r[u] == temp[u]
    ensures forall u :: u in r && u !in temp ==> u in content && r[u] == content[u]
  {
    Retained(content, origin, resources, oldManifest) + temp
  }

  /**
   * Upgrading from manifest `oldManifest` to `resources`: an entry that was not
   * restaged survives iff its key is listed in both with the same fingerprint,
   * and a survivor keeps its response.
   */
  lemma UpgradeRetention(content: Cache, temp: Cache, origin: Url, resources: Table, oldManifest: Table, u: Url)
    requires WellFormed(resources) && u in content && u !in temp
    ensures var k := ActivationKey(u, origin);
      u in Upgraded(content, temp, origin, resources, oldManifest) <==>
      k in resources && k in oldManifest && resources[k] == oldManifest[k]
    ensures u in Upgraded(content, temp, origin, resources, oldManifest) ==>
      Upgraded(content, temp, origin, resources, oldManifest)[u] == content[u]
  {
  }

  /**
   * When every staged URL names a listed resource, the upgraded content cache
   * holds only listed resources, and each entry not restaged has a fingerprint
   * that did not change.
   */
  lemma UpgradedContentIsCurrent(content: Cache, temp: Cache, origin: Url, resources: Table, oldManifest: Table)
    requires forall u :: u in temp ==> ActivationKey(u, origin) in resources
    ensures forall u :: u in Upgraded(content, temp, origin, resources, oldManifest) ==>
      && ActivationKey(u, origin) in resources
      && (u !in temp ==> ActivationKey(u, origin) in oldManifest &&
                         oldManifest[ActivationKey(u, origin)] == resources[ActivationKey(u, origin)])
  {
  }

  /**
   * A response the fetch handler cached under "origin/p?v=..." never survives
   * an upgrade, even when the fingerprint of `p` did not change: the activate
   * handler derives the key "p?v=..." ("?v=..." for the entry page), and no
   * listed path holds "?v=".
   */
  lemma VersionedEntryEvicted(content: Cache, temp: Cache, origin: Url, resources: Table, oldManifest: Table,
                              p: Path, v: string)
    requires forall q :: q in resources ==> !Contains(q, VersionQuery)
    requires UrlOf(origin, p) + VersionQuery + v !in temp
    ensures UrlOf(origin, p) + VersionQuery + v !in Upgraded(content, temp, origin, resources, oldManifest)
  {
    ActivationKeyKeepsVersion(origin, p, v);
  }

  // ---------------------------------------------------------------------------
  // downloadOffline
  // ---------------------------------------------------------------------------

  /**
   * With a table key list that repeats no path and no empty path, the
   * download list repeats no URL: one URL per listed path at most.
   */
  lemma DownloadListIsDistinct(content: Cache, origin: Url, order: seq<Path>)
    requires Distinct(order) && forall p :: p in order ==> p != ""
    ensures var r := DownloadList(content, origin, order);
      forall i, j :: 0 <= i < j < |r| ==> r[i] != r[j]
  {
    var missing := Missing(order, Present(content, origin));
    MissingIsDistinct(order, Present(content, origin));
    var r := DownloadList(content, origin, order);
    forall i, j | 0 <= i < j < |r| ensures r[i] != r[j] {
      assert missing[i] in missing && missing[j] in missing;
      ActivationKeyOfUrl(origin, missing[i]);
      ActivationKeyOfUrl(origin, missing[j]);
    }
  }

  /**
   * The download never trips `addAll`'s rule against repeated requests: it
   * succeeds exactly when every fetch it makes is accepted.
   */
  lemma DownloadFailsOnlyOnFetch(content: Cache, origin: Url, order: seq<Path>, net: Network)
    requires Distinct(order) && forall p :: p in order ==> p != ""
    ensures var urls := DownloadList(content, origin, order);
      AddAll(content, urls, net).Some? <==> forall i :: 0 <= i < |urls| ==> Accepts(net, urls[i])
  {
    DownloadListIsDistinct(content, origin, order);
  }

  /** `currentContent`: the keys derived from the URLs in the content cache. */
  function Present(content: Cache, origin: Url): (r: set<Path>)
    ensures forall u :: u in content ==> ActivationKey(u, origin) in r
    ensures forall k :: k in r ==> exists u :: u in content && ActivationKey(u, origin) == k
    ensures "" !in r
  {
    set u | u in content :: ActivationKey(u, origin)
  }

  /** The paths of `order` that are not in `present`, in the order of `order`. */
  function Missing(order: seq<Path>, present: set<Path>): (r: seq<Path>)
    ensures forall p :: p in r <==> p in order && p !in present
    ensures (forall p :: p in order ==> p in present) ==> r == []
    ensures |r| <= |order|
  {
    if order == [] then []
    else
      var init := order[..|order| - 1];
      var last := order[|order| - 1];
      assert order == init + [last];
      Missing(init, present) + (if last in present then [] else [last])
  }

  /** The URLs `downloadOffline` hands to `addAll`: one per listed path that has no cached request. */
  function DownloadList(content: Cache, origin: Url, order: seq<Path>): (r: seq<Url>)
    ensures |r| <= |order|
    ensures forall u :: u in r ==> exists p :: p in order && p !in Present(content, origin) && u == UrlOf(origin, p)
  {
    Urls(origin, Missing(order, Present(content, origin)))
  }

  /** The content cache after `downloadOffline`: unchanged when `addAll` rejects. */
  function Downloaded(content: Cache, origin: Url, order: seq<Path>, net: Network): (r: Cache)
    ensures content.Keys <= r.Keys
    ensures forall u :: u in r && u !in content ==> r[u].Ok()
  {
    match AddAll(content, DownloadList(content, origin, order), net)
    case Some(after) => after
    case None => content
  }

  /** The first loop of `downloadOffline`: collect the key of every cached request. */
  method CollectPresent(content: Cache, origin: Url) returns (present: set<Path>)
    ensures present == Present(content, origin)
  {
    present := {};
    var pending := content.Keys;
    while pending != {}
      invariant pending <= content.Keys
      invariant present == set u | u in content && u !in pending :: ActivationKey(u, origin)
      decreases pending
    {
      var u :| u in pending;
      ghost var done := set w | w in content && w !in pending :: ActivationKey(w, origin);
      pending := pending - {u};
      present := present + {ActivationKey(u, origin)};
      assert (set w | w in content && w !in pending :: ActivationKey(w, origin)) == done + {ActivationKey(u, origin)};
    }
  }

  /** The second loop of `downloadOffline`: the listed paths with no cached request, in table order. */
  method PendingDownloads(order: seq<Path>, present: set<Path>) returns (resources: seq<Path>)
    ensures resources == Missing(order, present)
  {
    resources := [];
    for i := 0 to |order|
      invariant resources == Missing(order[..i], present)
    {
      assert order[..i + 1][..i] == order[..i];
      if order[i] !in present {
        resources := resources + [order[i]];
      }
    }
    assert order[..|order|] == order;
  }

  /** Any two elements of `r` occur in `order` in the same relative order. */
  ghost predicate KeepsOrderOf(r: seq<Path>, order: seq<Path>) {
    forall i, j :: 0 <= i < j < |r| ==>
      exists a, b :: 0 <= a < b < |order| && order[a] == r[i] && order[b] == r[j]
  }

  /**
   * The download list keeps the table's order: any two of its paths appear
   * in `order` in the same relative order.
   */
  lemma {:induction false} MissingKeepsOrder(order: seq<Path>, present: set<Path>)
    ensures KeepsOrderOf(Missing(order, present), order)
  {
    if order != [] {
      var init := order[..|order| - 1];
      var last := order[|order| - 1];
      MissingKeepsOrder(init, present);
      var r0 := Missing(init, present);
      var r := Missing(order, present);
      assert r == r0 + (if last in present then [] else [last]);
      forall i, j | 0 <= i < j < |r|
        ensures exists a, b :: 0 <= a < b < |order| && order[a] == r[i] && order[b] == r[j]
      {
        OrderWitness(order, r0, r, i, j);
      }
    }
  }

  /** One step of `MissingKeepsOrder`: a pair of `r0 + [last]` taken from `order == init + [last]`. */
  lemma OrderWitness(order: seq<Path>, r0: seq<Path>, r: seq<Path>, i: int, j: int)
    requires order != [] && KeepsOrderOf(r0, order[..|order| - 1])
    requires forall p :: p in r0 ==> p in order[..|order| - 1]
    requires r == r0 || r == r0 + [order[|order| - 1]]
    requires 0 <= i < j < |r|
    ensures exists a, b :: 0 <= a < b < |order| && order[a] == r[i] && order[b] == r[j]
  {
    var init := order[..|order| - 1];
    assert r[i] == r0[i];
    if j < |r0| {
      assert r[j] == r0[j];
      var a, b :| 0 <= a < b < |init| && init[a] == r0[i] && init[b] == r0[j];
      assert order[a] == init[a] && order[b] == init[b];
    } else {
      assert r0[i] in r0;
      var a :| 0 <= a < |init| && init[a] == r0[i];
      assert order[a] == r[i] && order[|order| - 1] == r[j];
    }
  }

  /** The download list repeats no path when `order` repeats none. */
  lemma {:induction false} MissingIsDistinct(order: seq<Path>, present: set<Path>)
    requires Distinct(order)
    ensures Distinct(Missing(order, present))
  {
    if order != [] {
      var init := order[..|order| - 1];
      var last := order[|order| - 1];
      assert Distinct(init);
      MissingIsDistinct(init, present);
      assert last !in init;
      assert last !in Missing(init, present);
    }
  }

  /** No URL that `downloadOffline` fetches is already in the content cache. */
  lemma DownloadListIsFresh(content: Cache, origin: Url, order: seq<Path>)
    requires forall p :: p in order ==> p != ""
    ensures forall u :: u in DownloadList(content, origin, order) ==> u !in content
  {
    var missing := Missing(order, Present(content, origin));
    var urls := DownloadList(content, origin, order);
    forall u | u in urls ensures u !in content {
      var i :| 0 <= i < |urls| && urls[i] == u;
      var p := missing[i];
      assert p in order && p !in Present(content, origin);
      ActivationKeyOfUrl(origin, p);
      assert ActivationKey(u, origin) == p;
      assert u in content ==> p in Present(content, origin);
    }
  }

  /** Every path of `order` has a cached request once the download list has been added. */
  lemma DownloadCovers(content: Cache, origin: Url, order: seq<Path>, net: Network, after: Cache)
    requires forall p :: p in order ==> p != ""
    requires AddAll(content, DownloadList(content, origin, order), net) == Some(after)
    ensures forall p :: p in order ==> p in Present(after, origin)
  {
    var present := Present(content, origin);
    var missing := Missing(order, present);
    forall p | p in order ensures p in Present(after, origin) {
      if p in present {
        var u :| u in content && ActivationKey(u, origin) == p;
        assert u in after;
      } else {
        assert p in missing;
        var i :| 0 <= i < |missing| && missing[i] == p;
        assert DownloadList(content, origin, order)[i] == UrlOf(origin, p);
        ActivationKeyOfUrl(origin, p);
        assert UrlOf(origin, p) in after;
      }
    }
  }

  /**
   * After a successful `downloadOffline` every listed path has a cached
   * request, every entry cached before is untouched, and a second run would
   * fetch nothing.
   */
  lemma DownloadCompletes(content: Cache, origin: Url, order: seq<Path>, resources: Table, net: Network, after: Cache)
    requires ListsTable(order, resources) && WellFormed(resources)
    requires AddAll(content, DownloadList(content, origin, order), net) == Some(after)
    ensures resources.Keys <= Present(after, origin)
    ensures forall u :: u in content ==> u in after && after[u] == content[u]
    ensures DownloadList(after, origin, order) == []
  {
    DownloadListIsFresh(content, origin, order);
    DownloadCovers(content, origin, order, net, after);
    var present := Present(after, origin);
    assert forall p :: p in order ==> p in present;
    assert Missing(order, present) == [];
  }

  /**
   * `downloadOffline` as a whole: it never changes an entry cached before it
   * ran, and when `addAll` succeeds every listed path has a cached request.
   */
  lemma DownloadedKeepsAndCompletes(content: Cache, origin: Url, order: seq<Path>, resources: Table, net: Network)
    requires ListsTable(order, resources) && WellFormed(resources)
    ensures var r := Downloaded(content, origin, order, net);
      forall u :: u in content ==> u in r && r[u] == content[u]
    ensures var r := Downloaded(content, origin, order, net);
      AddAll(content, DownloadList(content, origin, order), net).Some? ==>
        resources.Keys <= Present(r, origin) && DownloadList(r, origin, order) == []
  {
    var added := AddAll(content, DownloadList(content, origin, order), net);
    if added.Some? {
      DownloadCompletes(content, origin, order, resources, net, added.value);
    }
  }

  // ---------------------------------------------------------------------------
  // fetch
  // ---------------------------------------------------------------------------

  /** What a fetch handler's response promise settles with, whether it went to the network, and the content cache afterwards. */
  datatype Answer = Answer(outcome: Outcome, fetched: bool, cache: Cache)

  /**
   * Cache-first: a hit is answered from the cache without a fetch; a miss is
   * answered with whatever the network gives, and only an ok response is stored.
   */
  function CacheFirstAnswer(cache: Cache, url: Url, net: Outcome): (a: Answer)
    ensures url in cache ==> !a.fetched && a.outcome == Resolved(cache[url]) && a.cache == cache
    ensures url !in cache ==> a.fetched && a.outcome == net
    ensures a.cache.Keys == cache.Keys + (if url !in cache && net.Resolved? && net.response.Ok() then {url} else {})
    ensures forall u :: u in cache ==> a.cache[u] == cache[u]
    ensures a.outcome.Resolved? && a.outcome.response.Ok() ==> url in a.cache && a.cache[url] == a.outcome.response
  {
    if url in cache then Answer(Resolved(cache[url]), false, cache)
    else if net.Resolved? && net.response.Ok() then Answer(net, true, cache[url := net.response])
    else Answer(net, true, cache)
  }

  /**
   * Network-first (`onlineFirst`): a response of any status is stored and
   * returned; on a network error the cached copy is returned if there is one,
   * else the original error is raised again.
   */
  function NetworkFirstAnswer(cache: Cache, url: Url, net: Outcome): (a: Answer)
    ensures a.fetched
    ensures net.Resolved? ==> a.outcome == net && url in a.cache && a.cache[url] == net.response
    ensures net.Resolved? ==> forall u :: u in cache && u != url ==> u in a.cache && a.cache[u] == cache[u]
    ensures net.Resolved? ==> a.cache.Keys == cache.Keys + {url}
    ensures net.Rejected? ==> a.cache == cache
    ensures net.Rejected? ==> a.outcome == if url in cache then Resolved(cache[url]) else net
  {
    match net
    case Resolved(response) => Answer(net, true, cache[url := response])
    case Rejected(_) =>
      if url in cache then Answer(Resolved(cache[url]), true, cache) else Answer(net, true, cache)
  }

  /** Two requests for the same resource: after a cache-first miss that was answered ok, the next one is a hit on the same response. */
  lemma CacheFirstPopulates(cache: Cache, url: Url, net: Outcome, later: Outcome)
    requires url !in cache && net.Resolved? && net.response.Ok()
    ensures var second := CacheFirstAnswer(CacheFirstAnswer(cache, url, net).cache, url, later);
      !second.fetched && second.outcome == net
  {
  }
}
