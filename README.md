# Cache lifecycle of the Flutter service worker

This project is a Dafny model of the cache lifecycle in the service worker
that Flutter generates for the web build of the game
(`docs/flutter_service_worker.js`). The worker manages three named caches:

- the content cache (`flutter-app-cache`), holding the responses it serves;
- the staging cache (`flutter-temp-cache`), filled at install;
- the manifest cache (`flutter-app-manifest`), holding the resource table
  that the last activation saved.

It drives them from four browser events:

- **install** stages the application shell files (`CORE`).
- **activate** moves the staged files into the content cache. With no saved
  manifest it resets the content cache. With a saved manifest it keeps only
  entries whose fingerprint did not change. On any failure it deletes all
  three caches.
- **fetch** routes GET requests for listed resources. The entry page `/`
  goes network-first. Every other listed resource goes cache-first, with lazy
  population on ok responses.
- **message** handles two strings. `skipWaiting` asks to skip waiting.
  `downloadOffline` adds every listed resource that has no cached request.

Modules, one file each:

- `net.dfy`, `Net`: the platform as values. A response has a status, and
  `ok` means 200–299. A fetch outcome is a resolved response or a rejection.
  A cache is a map from request URL to response. `Cache.addAll` is
  all-or-nothing. It refuses non-ok and 206 (partial content) responses, and
  a batch in which the same URL occurs twice.
- `keys.dfy`, `Keys`: how a request URL becomes a resource key. It covers
  `url.substring(origin.length + 1)`, the empty-key-to-`/` rule, and the fetch
  handler's extra steps: cutting at the first `?v=`, and mapping the bare
  origin and `origin/#…` to `/`. It also has the URL a relative resource path
  names, with round-trip lemmas in both directions: path to URL to path, and
  URL to path to URL.
- `routing.dfy`, `Routing`: the fetch handler's routing decision.
  `RESOURCES[key]` is read by truthiness: listed with a non-empty fingerprint.
- `lifecycle.dfy`, `Lifecycle`: each handler's effect as a function of the
  caches before it runs, with the lemmas about those functions. It also holds
  the two loops of `downloadOffline` as methods.
- `worker.dfy`, `Worker`: the `ServiceWorker` class. The caches are its
  `map` fields, and its handler methods update them in place. Each method is
  proved against the functions of `Lifecycle`.

Two behaviours of the code are worth knowing. The model states both.

- The fetch handler strips `?v=`, but it caches the response under the full
  request URL, `?v=` included. The activate handler and `downloadOffline` do
  not strip `?v=`. So an entry cached as `origin/p?v=…` gets the key `p?v=…`.
  No listed path has that key, so every upgrade evicts the entry, even when the
  fingerprint of `p` did not change (`Lifecycle.VersionedEntryEvicted`).
- The content cache does not always hold only listed, current resources. The
  fetch handler can cache under `?v=` URLs, and in the model under `#` URLs
  too (see "Left out" on fragment matching). Activation restores the
  property only when every staged URL names a listed resource
  (`Lifecycle.UpgradedContentIsCurrent`). So the content cache is not
  guaranteed to hold only listed resources with current fingerprints.

## Model

| member | source | states |
|---|---|---|
| `Net.AddAll` | docs/flutter_service_worker.js:220 | `addAll` succeeds iff no URL occurs twice and every URL resolves with an ok response other than 206. On success the cache gains exactly those URLs, each holding its fetched response, and every other entry is unchanged. |
| `Keys.IndexOfFrom` | docs/flutter_service_worker.js:160 | `indexOf` from a position returns the first occurrence at or after it, or none when there is no occurrence there. |
| `Keys.IndexOf` | docs/flutter_service_worker.js:160 | `indexOf` finds nothing iff the pattern does not occur. Otherwise it returns an occurrence with none before it. |
| `Keys.StripVersion` | docs/flutter_service_worker.js:160-162 | The result is a prefix of the key and never contains `?v=`. A key without `?v=` is unchanged. A shorter result ends where the first `?v=` of the key begins. |
| `Keys.AfterOrigin` | docs/flutter_service_worker.js:158 | `url.substring(origin.length + 1)` is the suffix of the URL after its first `origin.length + 1` characters, and empty when the URL is no longer than that. |
| `Keys.ActivationKey` | docs/flutter_service_worker.js:119-122 | The key the activate handler and `downloadOffline` derive is never empty. It equals the text after `origin/` when that text is non-empty, and `/` otherwise. |
| `Keys.FetchKey` | docs/flutter_service_worker.js:157-165 | The fetch key is never empty and never contains `?v=`. The bare origin and every `origin/#…` URL give `/`. Any other URL gives the text after `origin/` cut before its first `?v=`, or `/` when that is empty. |
| `Keys.UrlOf` | docs/flutter_service_worker.js:86-87 | The URL of a relative path starts with `origin/`. `/` names `origin/`, and any other path is the text after `origin/`. |
| `Keys.ActivationKeyOfUrl` | docs/flutter_service_worker.js:208-212 | Every non-empty resource path is the derived key of its own request URL. `/` names `origin/`. |
| `Keys.UrlOfActivationKey` | docs/flutter_service_worker.js:208-212 | The reverse round trip: for every `origin/q` with `q` other than `/`, the URL of its derived key is `origin/q` again. |
| `Keys.FirstVersionQuery` | docs/flutter_service_worker.js:160-161 | When `p` has no `?v=`, the first `?v=` in `p?v=v` is the appended one. |
| `Keys.FetchKeyOfUrl` | docs/flutter_service_worker.js:158-165 | The fetch handler maps a resource path's URL back to the path, with or without a `?v=` query. This holds for paths that are non-empty, do not start with `#` and hold no `?v=`. |
| `Keys.RootForms` | docs/flutter_service_worker.js:157-165 | `origin`, `origin/`, `origin/?v=…` and `origin/#…` all normalise to `/`. |
| `Keys.ActivationKeyKeepsVersion` | docs/flutter_service_worker.js:119-122 | For `origin/p?v=…` the activation key is `p?v=…` (`?v=…` for the entry page), which still contains `?v=`. |
| `Routing.RouteOf` | docs/flutter_service_worker.js:154-174 | Non-GET requests are never intercepted. A GET passes through iff its key is not truthy in `RESOURCES`. It goes network-first iff its key is `/` and `/` is listed. It goes cache-first only for listed keys other than `/`. |
| `Routing.Known` | docs/flutter_service_worker.js:168 | `RESOURCES[key]` is truthy iff the key is listed with a non-empty fingerprint. |
| `Routing.KnownIsMembership` | docs/flutter_service_worker.js:168 | With non-empty fingerprints, the truthiness test equals membership. |
| `Routing.EntryPageIsNetworkFirst` | docs/flutter_service_worker.js:163-174 | Every form of the entry-page URL is routed network-first when `/` is listed. |
| `Routing.ListedResourceIsCacheFirst` | docs/flutter_service_worker.js:158-175 | A GET for a listed path other than `/` is routed cache-first, with or without `?v=`. |
| `Routing.UnlistedIsPassThrough` | docs/flutter_service_worker.js:166-170 | A GET whose key is not listed is never intercepted. |
| `Lifecycle.Urls` | docs/flutter_service_worker.js:86-87 | Each relative path becomes one request URL, position by position: the URL the path names under the origin. |
| `Lifecycle.InstallStagesCore` | docs/flutter_service_worker.js:85-87 | A successful install stages every core file with an ok response. Every new staged URL is the URL of a core file. |
| `Lifecycle.CleanInstallStagesExactlyCore` | docs/flutter_service_worker.js:85-87 | Installing over an empty staging cache stages exactly the core files' URLs. |
| `Lifecycle.Keeps` | docs/flutter_service_worker.js:126 | An entry is kept only when its key is listed in both tables with the same fingerprint. A listed key with a non-empty fingerprint is evicted when the saved manifest lacks it or holds a different fingerprint. |
| `Lifecycle.Retained` | docs/flutter_service_worker.js:118-129 | The eviction loop leaves a sub-map of the old content. Every surviving entry keeps its response. |
| `Lifecycle.UpgradeRetention` | docs/flutter_service_worker.js:126-128 | An entry not restaged survives an upgrade iff its key is listed in both tables with equal fingerprints. A survivor is unchanged. |
| `Lifecycle.Upgraded` | docs/flutter_service_worker.js:116-135 | Every staged entry ends in the content cache with the staged response, overwriting a retained one. Every other entry was in the old content with the same response. Nothing else is added. |
| `Lifecycle.UpgradedContentIsCurrent` | docs/flutter_service_worker.js:116-135 | If every staged URL names a listed resource, every entry after the upgrade has a listed key. Every entry that was not restaged has an unchanged fingerprint. |
| `Lifecycle.VersionedEntryEvicted` | docs/flutter_service_worker.js:119-128 | An entry cached under `origin/p?v=…`, or `origin/?v=…` for the entry page, never survives an upgrade unless it was restaged. |
| `Lifecycle.Present` | docs/flutter_service_worker.js:207-214 | `currentContent` holds the derived key of every cached URL, and only such keys. It never holds the empty key. |
| `Lifecycle.Missing` | docs/flutter_service_worker.js:215-219 | The fetch list holds exactly the table's paths that are not present, and no more of them than the table has. It is empty when every path is present. |
| `Lifecycle.MissingKeepsOrder` | docs/flutter_service_worker.js:215-219 | Any two paths of the fetch list appear in the table's key order in the same relative order. |
| `Lifecycle.MissingIsDistinct` | docs/flutter_service_worker.js:215-219 | The fetch list repeats no path when the table's key list repeats none. |
| `Lifecycle.DownloadList` | docs/flutter_service_worker.js:215-220 | `addAll` is given no more URLs than the table has paths, each the URL of a listed path that has no cached request. |
| `Lifecycle.DownloadFailsOnlyOnFetch` | docs/flutter_service_worker.js:220 | With a key list that repeats no path and holds no empty path, the download's `addAll` succeeds iff every fetch it makes is accepted; the repeated-request rule never rejects it. |
| `Lifecycle.DownloadListIsDistinct` | docs/flutter_service_worker.js:215-220 | With a key list that repeats no path and holds no empty path, `addAll` is given each URL at most once. |
| `Lifecycle.Downloaded` | docs/flutter_service_worker.js:220 | The content cache after `downloadOffline` keeps every old URL, and every URL it gains holds an ok response. |
| `Lifecycle.CollectPresent` | docs/flutter_service_worker.js:207-214 | The first loop builds exactly the set of keys derived from the cached URLs. |
| `Lifecycle.PendingDownloads` | docs/flutter_service_worker.js:215-219 | The second loop builds exactly the `Missing` list. |
| `Lifecycle.DownloadListIsFresh` | docs/flutter_service_worker.js:207-220 | No URL that `downloadOffline` fetches is already cached, so existing entries are never overwritten. |
| `Lifecycle.DownloadCovers` | docs/flutter_service_worker.js:207-220 | After a successful `addAll`, every path of the table has a cached request. |
| `Lifecycle.DownloadCompletes` | docs/flutter_service_worker.js:204-221 | After a successful `downloadOffline`, every listed resource is cached and every earlier entry is untouched. A second run would fetch nothing. |
| `Lifecycle.DownloadedKeepsAndCompletes` | docs/flutter_service_worker.js:204-221 | `downloadOffline` never changes an entry cached before it ran. When `addAll` succeeds, every listed resource is cached afterwards and a second run would fetch nothing. |
| `Lifecycle.CacheFirstAnswer` | docs/flutter_service_worker.js:175-188 | A hit is returned with no fetch and the cache unchanged. On a miss, the network outcome is returned whatever its status. Only an ok response is stored, and no existing entry changes. |
| `Lifecycle.NetworkFirstAnswer` | docs/flutter_service_worker.js:224-242 | A resolved response of any status is stored under the URL and returned, and other entries are kept. On rejection the cache is unchanged, and the result is the cached copy if there is one, else the original error. |
| `Lifecycle.CacheFirstPopulates` | docs/flutter_service_worker.js:177-185 | After a miss answered ok, the next request for the same URL is a hit on that response, with no fetch. |
| `Worker.ServiceWorker.Install` | docs/flutter_service_worker.js:82-90 | Skip-waiting is requested. The staging cache becomes `addAll` of the core URLs over its old entries, or stays unchanged when `addAll` rejects. |
| `Worker.ServiceWorker.PutAll` | docs/flutter_service_worker.js:132-135 | Copying the staging cache leaves the content cache equal to the old content overlaid with the staged entries. |
| `Worker.ServiceWorker.EvictStale` | docs/flutter_service_worker.js:118-129 | The in-place deletion loop leaves exactly `Retained` of the old content. |
| `Worker.ServiceWorker.Activate` | docs/flutter_service_worker.js:94-150 | With no saved manifest, the content cache becomes exactly the staged entries. With one, it becomes the retained old content overlaid with the staged entries. Either way the staging cache is emptied, the manifest becomes `RESOURCES` and the clients are claimed. On failure all three caches are emptied. |
| `Worker.ServiceWorker.CacheFirst` | docs/flutter_service_worker.js:175-188 | Answer, fetch flag and new content cache are those of `CacheFirstAnswer`. |
| `Worker.ServiceWorker.OnlineFirst` | docs/flutter_service_worker.js:224-242 | Answer and new content cache are those of `NetworkFirstAnswer`. |
| `Worker.ServiceWorker.HandleFetch` | docs/flutter_service_worker.js:153-189 | A pass-through route responds with nothing and leaves the cache alone. The other two routes answer and update the cache as their answer functions say. |
| `Worker.ServiceWorker.DownloadOffline` | docs/flutter_service_worker.js:204-221 | Reports whether `addAll` of the `Missing` URLs succeeded. The content cache becomes its result, or stays unchanged on rejection. |
| `Worker.ServiceWorker.HandleMessage` | docs/flutter_service_worker.js:190-201 | `skipWaiting` only requests skip-waiting. `downloadOffline` only runs the download, and on success every listed resource is cached with earlier entries untouched. Any other message changes nothing. |

## Left out

- The Cache Storage API, `Request` and `Response` objects, and
  `response.clone()`. A cache is a map from request URL to a response value.
  A deleted cache is an empty map, because the handlers reopen caches by name.
- Real network behaviour and HTTP cache modes, such as install's
  `{'cache': 'reload'}`. A single fetch is a given outcome. `addAll` takes the
  network as a function from URL to outcome.
- The bodies of the saved manifest and the JSON encoding. The manifest entry
  holds the table itself, so `JSON.stringify` followed by `manifest.json()` is
  the identity.
- async/await, `waitUntil`/`respondWith`, and races between concurrent
  events. Each handler runs to completion as one step. The message handler
  does not await `downloadOffline`, but the model runs it to the end.
- Which step of activation throws. `Worker.ServiceWorker.Activate` takes the
  failure as one flag. The catch block deletes all three caches, so the final
  caches do not depend on where the failure happened.
- `Lifecycle.NetworkFirstAnswer`: fragment-insensitive matching is not
  modelled. The Cache API ignores the URL fragment when it matches a request
  against a stored entry, so a GET for `origin/#/play` would find and replace
  the entry of `origin/`. The model keys caches by the exact URL, fragment
  included: on a network error it answers such a request with the error, and
  on success it stores a second entry beside `origin/`.
- `Worker.ServiceWorker.OnlineFirst`: inherits the same exact-URL matching
  from `Lifecycle.NetworkFirstAnswer`.
- `Lifecycle.CacheFirstAnswer`: fragment-insensitive matching is not modelled
  here either. The fetch handler cuts the key at `?v=` before it consults the
  table, so a GET for `origin/p?v=1#x` with `p` listed goes cache-first. The
  Cache API would answer it from an entry stored as `origin/p?v=1`, with no
  fetch. The model misses that entry, fetches, and on an ok response stores a
  second entry under the URL with its fragment.
- `Worker.ServiceWorker.CacheFirst`: inherits the same exact-URL lookup for
  `origin/p?v=…#…` from `Lifecycle.CacheFirstAnswer`.
- `Net.AddAll`: two requests of a batch that differ only in their fragment
  also count as repeated on the platform. The model compares exact URLs; the
  worker's own batches are URLs of fragment-free paths.
- A `cache.put` that rejects, for example for a 206 response. Neither fetch
  branch awaits its `put`, so the response is returned anyway. The model
  always stores the response.
- `console.error`. `self.clients.claim()` and `self.skipWaiting()` are recorded
  only as boolean fields.
- Resolution of relative paths. A path `p` names `origin/p`, and `/` names
  `origin/`. This is what the browser does when the worker is served from the
  origin's root.
- Properties inherited from `Object.prototype` (for example `constructor`).
  The JavaScript lookups `RESOURCES[key]` and `currentContent[key]` would find
  them. The model reads both objects as plain maps.
- Message payloads that are not strings. They match neither command, so they
  behave like any other unrecognised string.
- The concrete fingerprints in `RESOURCES` and the file list in `CORE`. They
  are constructor parameters. The worker's constructor, and the lemmas that
  need it, assume every path and every fingerprint is non-empty
  (`Routing.WellFormed`), as the build tool emits them.
