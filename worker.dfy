/**
 * The service worker's event handlers, acting in place on the three named
 * caches. Each handler runs to completion as one step; the network is the
 * outcome passed in.
 */
module Worker {
  import opened Net
  import opened Keys
  import opened Routing
  import opened Lifecycle

  /** What the fetch handler does with a request. */
  datatype Handling =
    | NotIntercepted                 // returned without calling `respondWith`
    | Responded(outcome: Outcome)    // `respondWith` a promise that settles with `outcome`

  class ServiceWorker {
    /** `self.location.origin` (and the global `origin` that `downloadOffline` reads). */
    const origin: Url
    /** `RESOURCES`: path to fingerprint. */
    const resources: Table
    /** `Object.keys(RESOURCES)`. */
    const order: seq<Path>
    /** `CORE`: the application shell files fetched at install. */
    const core: seq<Path>

    /** The content cache (`CACHE_NAME`). */
    var content: Cache
    /** The staging cache (`TEMP`). */
    var temp: Cache
    /** The 'manifest' entry of the manifest cache (`MANIFEST`): the table saved by the last activation. */
    var manifest: Option<Table>
    /** Whether `self.clients.claim()` has been called. */
    var claimed: bool
    /** Whether `self.skipWaiting()` has been called. */
    var skipWaiting: bool

    /** `order` lists the table, whose paths and fingerprints are all non-empty. */
    ghost predicate Valid() {
      ListsTable(order, resources) && WellFormed(resources)
    }

    /** A worker starting up over the caches that earlier versions left behind. */
    constructor (origin: Url, resources: Table, order: seq<Path>, core: seq<Path>,
                 content: Cache, temp: Cache, manifest: Option<Table>)
      requires ListsTable(order, resources) && WellFormed(resources)
      ensures Valid()
      ensures this.origin == origin && this.resources == resources && this.order == order && this.core == core
      ensures this.content == content && this.temp == temp && this.manifest == manifest
      ensures !claimed && !skipWaiting
    {
      this.origin := origin;
      this.resources := resources;
      this.order := order;
      this.core := core;
      this.content := content;
      this.temp := temp;
      this.manifest := manifest;
      claimed := false;
      skipWaiting := false;
    }

    // -------------------------------------------------------------------------
    // install
    // -------------------------------------------------------------------------

    /** The install handler: ask to skip waiting, then add every core file to the staging cache. */
    method Install(net: Network) returns (ok: bool)
      modifies this`temp, this`skipWaiting
      ensures skipWaiting
      ensures ok == AddAll(old(temp), Urls(origin, core), net).Some?
      ensures ok ==> temp == AddAll(old(temp), Urls(origin, core), net).value
      ensures ok ==> forall p :: p in core ==> UrlOf(origin, p) in temp && temp[UrlOf(origin, p)].Ok()
      ensures !ok ==> temp == old(temp)
    {
      skipWaiting := true;
      var staged := AddAll(temp, Urls(origin, core), net);
      ok := staged.Some?;
      if ok {
        InstallStagesCore(temp, origin, core, net, staged.value);
        temp := staged.value;
      }
    }

    // -------------------------------------------------------------------------
    // activate
    // -------------------------------------------------------------------------

    /** Put every entry of `src` into the content cache, replacing entries under the same URL. */
    method PutAll(src: Cache)
      modifies this`content
      ensures content == old(content) + src
    {
      var pending := src.Keys;
      while pending != {}
        invariant pending <= src.Keys
        invariant content == old(content) + map u | u in src && u !in pending :: src[u]
        decreases pending
      {
        var u :| u in pending;
        pending := pending - {u};
        content := content[u := src[u]];
        assert content == old(content) + map w | w in src && w !in pending :: src[w];
      }
      assert (map u | u in src && u !in pending :: src[u]) == src;
    }

    /** The eviction loop of an upgrade: delete every entry whose resource was removed or changed. */
    method EvictStale(oldManifest: Table)
      modifies this`content
      ensures content == Retained(old(content), origin, resources, oldManifest)
    {
      ghost var before := content;
      var pending := content.Keys;
      while pending != {}
        invariant pending <= before.Keys
        invariant content == map u | u in before &&
          (u in pending || Keeps(resources, oldManifest, ActivationKey(u, origin))) :: before[u]
        decreases pending
      {
        var u :| u in pending;
        var key := ActivationKey(u, origin);
        if !Known(resources, key) || key !in oldManifest || resources[key] != oldManifest[key] {
          content := content - {u};
        }
        pending := pending - {u};
      }
    }

    /**
     * The activate handler. Without a saved manifest the content cache is
     * replaced by the staged files; with one, stale entries are evicted and the
     * staged files put over the rest. Either way the staging cache is deleted,
     * the table is saved as the new manifest and the clients are claimed. When
     * any step fails (`fault`), all three caches are deleted instead.
     */
    method Activate(fault: bool)
      modifies this`content, this`temp, this`manifest, this`claimed
      ensures fault ==> content == map[] && temp == map[] && manifest == None && claimed == old(claimed)
      ensures !fault && old(manifest).None? ==> content == old(temp)
      ensures !fault && old(manifest).Some? ==>
        content == Upgraded(old(content), old(temp), origin, resources, old(manifest).value)
      ensures !fault ==> temp == map[] && manifest == Some(resources) && claimed
    {
      if fault {
        content, temp, manifest := map[], map[], None;
        return;
      }
      if manifest.None? {
        content := map[];
      } else {
        EvictStale(manifest.value);
      }
      PutAll(temp);
      temp := map[];
      manifest := Some(resources);
      claimed := true;
    }

    // -------------------------------------------------------------------------
    // fetch
    // -------------------------------------------------------------------------

    /** The cache-first branch of the fetch handler. */
    method CacheFirst(url: Url, net: Outcome) returns (res: Outcome, fetched: bool)
      modifies this`content
      ensures Answer(res, fetched, content) == CacheFirstAnswer(old(content), url, net)
    {
      if url in content {
        return Resolved(content[url]), false;
      }
      res, fetched := net, true;
      if net.Resolved? && net.response.Ok() {
        content := content[url := net.response];
      }
    }

    /** `onlineFirst`. */
    method OnlineFirst(url: Url, net: Outcome) returns (res: Outcome)
      modifies this`content
      ensures Answer(res, true, content) == NetworkFirstAnswer(old(content), url, net)
    {
      match net
      case Resolved(response) =>
        content := content[url := response];
        res := net;
      case Rejected(_) =>
        res := if url in content then Resolved(content[url]) else net;
    }

    /** The fetch handler; `net` is what a fetch of `url` would settle with. */
    method HandleFetch(requestMethod: string, url: Url, net: Outcome) returns (h: Handling)
      modifies this`content
      ensures RouteOf(requestMethod, url, origin, resources).PassThrough? ==>
        h == NotIntercepted && content == old(content)
      ensures RouteOf(requestMethod, url, origin, resources).NetworkFirst? ==>
        h == Responded(NetworkFirstAnswer(old(content), url, net).outcome) &&
        content == NetworkFirstAnswer(old(content), url, net).cache
      ensures RouteOf(requestMethod, url, origin, resources).CacheFirst? ==>
        h == Responded(CacheFirstAnswer(old(content), url, net).outcome) &&
        content == CacheFirstAnswer(old(content), url, net).cache
    {
      if requestMethod != "GET" {
        return NotIntercepted;
      }
      var key := FetchKey(url, origin);
      if !Known(resources, key) {
        return NotIntercepted;
      }
      if key == Root {
        var res := OnlineFirst(url, net);
        return Responded(res);
      }
      var res, _ := CacheFirst(url, net);
      h := Responded(res);
    }

    // -------------------------------------------------------------------------
    // message
    // -------------------------------------------------------------------------

    /** `downloadOffline`: add every listed path that has no cached request. */
    method DownloadOffline(net: Network) returns (ok: bool)
      requires Valid()
      modifies this`content
      ensures ok == AddAll(old(content), DownloadList(old(content), origin, order), net).Some?
      ensures content == Downloaded(old(content), origin, order, net)
    {
      var present := CollectPresent(content, origin);
      var resourcesToFetch := PendingDownloads(order, present);
      assert Urls(origin, resourcesToFetch) == DownloadList(content, origin, order);
      var after := AddAll(content, Urls(origin, resourcesToFetch), net);
      ok := after.Some?;
      if ok {
        content := after.value;
      }
    }

    /** The message handler. */
    method HandleMessage(data: string, net: Network)
      requires Valid()
      modifies this`content, this`skipWaiting
      ensures data == "skipWaiting" ==> skipWaiting && content == old(content)
      ensures data == "downloadOffline" ==>
        skipWaiting == old(skipWaiting) && content == Downloaded(old(content), origin, order, net)
      ensures data == "downloadOffline" &&
              AddAll(old(content), DownloadList(old(content), origin, order), net).Some? ==>
        && resources.Keys <= Present(content, origin)
        && (forall u :: u in old(content) ==> u in content && content[u] == old(content)[u])
        && DownloadList(content, origin, order) == []
      ensures data != "skipWaiting" && data != "downloadOffline" ==>
        skipWaiting == old(skipWaiting) && content == old(content)
    {
      if data == "skipWaiting" {
        skipWaiting := true;
        return;
      }
      if data == "downloadOffline" {
        ghost var before := content;
        var _ := DownloadOffline(net);
        DownloadedKeepsAndCompletes(before, origin, order, resources, net);
        return;
      }
    }
  }
}
