/**
 * How the worker turns a request URL into a resource key.
 *
 * Three handlers derive a key from `request.url`. All three drop the first
 * `origin.length + 1` characters and map the empty key to the root sentinel
 * "/". The fetch handler also cuts the key at the first "?v=" and maps the
 * bare origin and any "origin/#..." URL to "/". The activate handler and
 * `downloadOffline` do neither.
 */
module Keys {
  import opened Net

  /** A resource path relative to the origin, as the resource table lists it. */
  type Path = string

  /** The cache-busting query that the fetch handler removes. */
  const VersionQuery: string := "?v="

  /** The sentinel key of the application's entry page. */
  const Root: Path := "/"

  predicate OccursAt(s: string, pat: string, i: nat) {
    i + |pat| <= |s| && s[i..i + |pat|] == pat
  }

  ghost predicate Contains(s: string, pat: string) {
    exists i: nat :: OccursAt(s, pat, i)
  }

  /** `s.indexOf(pat, from)`, with None for -1: the first occurrence at or after `from`. */
  function IndexOfFrom(s: string, pat: string, from: nat): (r: Option<nat>)
    ensures r.Some? ==> from <= r.value && OccursAt(s, pat, r.value)
    ensures r.Some? ==> forall j: nat :: from <= j < r.value ==> !OccursAt(s, pat, j)
    ensures r.None? ==> forall j: nat :: from <= j ==> !OccursAt(s, pat, j)
    decreases |s| - from
  {
    if from + |pat| > |s| then None
    else if OccursAt(s, pat, from) then Some(from)
    else IndexOfFrom(s, pat, from + 1)
  }

  /** `s.indexOf(pat)`: the first occurrence of `pat` in `s`, if any. */
  function IndexOf(s: string, pat: string): (r: Option<nat>)
    ensures r.None? <==> !Contains(s, pat)
    ensures r.Some? ==> OccursAt(s, pat, r.value) && forall j: nat :: j < r.value ==> !OccursAt(s, pat, j)
  {
    IndexOfFrom(s, pat, 0)
  }

  /** An occurrence inside a prefix of `s` is an occurrence in `s` that ends within the prefix. */
  lemma OccursInPrefix(s: string, n: nat, pat: string, j: nat)
    requires n <= |s| && OccursAt(s[..n], pat, j)
    ensures OccursAt(s, pat, j) && j + |pat| <= n
  {
  }

  /**
   * `key.split('?v=')[0]` when `key` contains "?v=", else `key` itself:
   * the part of `key` before its first "?v=".
   */
  function StripVersion(key: string): (r: string)
    ensures r <= key
    ensures !Contains(r, VersionQuery)
    ensures !Contains(key, VersionQuery) ==> r == key
    ensures |r| < |key| ==> OccursAt(key, VersionQuery, |r|)
  {
    match IndexOf(key, VersionQuery)
    case None => key
    case Some(i) =>
      assert !Contains(key[..i], VersionQuery) by {
        forall j: nat | OccursAt(key[..i], VersionQuery, j) ensures false {
          OccursInPrefix(key, i, VersionQuery, j);
        }
      }
      key[..i]
  }

  /** `url.substring(origin.length + 1)`: everything after the origin and one more character. */
  function AfterOrigin(url: Url, origin: Url): (r: string)
    ensures |r| <= |url| && r == url[|url| - |r|..]
    ensures |url| > |origin| + 1 ==> |r| == |url| - (|origin| + 1)
    ensures |url| <= |origin| + 1 ==> r == ""
  {
    if |url| <= |origin| + 1 then "" else url[|origin| + 1..]
  }

  /** The key the activate handler and `downloadOffline` derive from a cached request's URL. */
  function ActivationKey(url: Url, origin: Url): (k: Path)
    ensures k != ""
    ensures AfterOrigin(url, origin) != "" ==> k == AfterOrigin(url, origin)
    ensures AfterOrigin(url, origin) == "" ==> k == Root
  {
    var key := AfterOrigin(url, origin);
    if key == "" then Root else key
  }

  /** The key the fetch handler derives from a request's URL before looking it up. */
  function FetchKey(url: Url, origin: Url): (k: Path)
    ensures k != ""
    ensures !Contains(k, VersionQuery)
    ensures url == origin || origin + "/#" <= url ==> k == Root
    ensures k != Root ==> k == StripVersion(AfterOrigin(url, origin))
    ensures !(url == origin || origin + "/#" <= url) && StripVersion(AfterOrigin(url, origin)) != "" ==>
      k == StripVersion(AfterOrigin(url, origin))
  {
    var key := StripVersion(AfterOrigin(url, origin));
    if url == origin || origin + "/#" <= url || key == "" then Root
    else key
  }

  /**
   * The URL a relative resource path names when the worker is served from the
   * origin's root: "/" names the origin's root, any other path follows "origin/".
   */
  function UrlOf(origin: Url, p: Path): (u: Url)
    ensures origin + "/" <= u
    ensures p == Root ==> u == origin + "/"
    ensures p != Root ==> u[|origin| + 1..] == p
  {
    origin + "/" + (if p == Root then "" else p)
  }

  /** Every non-empty resource path is the activation key of its own URL. */
  lemma ActivationKeyOfUrl(origin: Url, p: Path)
    requires p != ""
    ensures ActivationKey(UrlOf(origin, p), origin) == p
  {
  }

  /**
   * Going the other way: the URL of the activation key of "origin/q" is
   * "origin/q" again, for every remainder `q` other than "/" (an empty `q`
   * gives the key "/", whose URL is "origin/").
   */
  lemma UrlOfActivationKey(origin: Url, q: string)
    requires q != Root
    ensures UrlOf(origin, ActivationKey(origin + "/" + q, origin)) == origin + "/" + q
  {
    if q != "" {
      assert (origin + "/" + q)[|origin| + 1..] == q;
    }
  }

  /** The first "?v=" in `p + "?v=" + v` is the appended one when `p` has none of its own. */
  lemma FirstVersionQuery(p: string, v: string)
    requires !Contains(p, VersionQuery)
    ensures IndexOf(p + VersionQuery + v, VersionQuery) == Some(|p|)
  {
    var s := p + VersionQuery + v;
    assert s[|p|..|p| + 3] == VersionQuery;
    assert OccursAt(s, VersionQuery, |p|);
    forall j: nat | j < |p| ensures !OccursAt(s, VersionQuery, j) {
      if j + 3 <= |p| {
        assert s[j..j + 3] == p[j..j + 3];
        assert !OccursAt(p, VersionQuery, j);
      } else if j + 1 == |p| {
        assert s[j + 1] == '?';
      } else {
        assert s[j + 2] == '?';
      }
    }
  }

  /**
   * The fetch handler maps the URL of a resource path, with or without a
   * "?v=" version query, back to that path.
   */
  lemma FetchKeyOfUrl(origin: Url, p: Path, v: string)
    requires p != "" && p[0] != '#' && !Contains(p, VersionQuery)
    ensures FetchKey(UrlOf(origin, p), origin) == p
    ensures FetchKey(UrlOf(origin, p) + VersionQuery + v, origin) == p
  {
    var q := if p == Root then "" else p;
    var url := UrlOf(origin, p);
    assert url == origin + "/" + q;
    assert AfterOrigin(url, origin) == q by {
      if q != "" { assert url[|origin| + 1..] == q; }
    }
    assert !(origin + "/#" <= url) by {
      if q != "" { assert url[|origin| + 1] == q[0]; }
    }
    assert !Contains(q, VersionQuery) by {
      if q == "" {
        forall j: nat | OccursAt(q, VersionQuery, j) ensures false { }
      }
    }
    var vurl := url + VersionQuery + v;
    assert AfterOrigin(vurl, origin) == q + VersionQuery + v by {
      assert vurl == origin + "/" + (q + VersionQuery + v);
      assert vurl[|origin| + 1..] == q + VersionQuery + v;
    }
    FirstVersionQuery(q, v);
    assert (q + VersionQuery + v)[..|q|] == q;
    assert !(origin + "/#" <= vurl) by {
      assert vurl[|origin| + 1] == (q + VersionQuery + v)[0];
      if q == "" {
        assert (q + VersionQuery + v)[0] == '?';
      } else {
        assert (q + VersionQuery + v)[0] == q[0];
      }
    }
  }

  /**
   * The bare origin, "origin/", "origin/?v=..." and "origin/#..." all reach
   * the fetch handler's lookup as the root sentinel.
   */
  lemma RootForms(origin: Url, v: string, fragment: string)
    ensures FetchKey(origin, origin) == Root
    ensures FetchKey(origin + "/", origin) == Root
    ensures FetchKey(origin + "/" + VersionQuery + v, origin) == Root
    ensures FetchKey(origin + "/#" + fragment, origin) == Root
  {
  }

  /**
   * The activate handler keeps the version query: a URL fetched as
   * "origin/p?v=..." has the activation key "p?v=...", which is not "p"; the
   * entry page fetched as "origin/?v=..." has the key "?v=...", which is not "/".
   */
  lemma ActivationKeyKeepsVersion(origin: Url, p: Path, v: string)
    ensures ActivationKey(UrlOf(origin, p) + VersionQuery + v, origin) ==
      (if p == Root then "" else p) + VersionQuery + v
    ensures Contains(ActivationKey(UrlOf(origin, p) + VersionQuery + v, origin), VersionQuery)
  {
    var q := if p == Root then "" else p;
    var url := UrlOf(origin, p) + VersionQuery + v;
    assert url == origin + "/" + (q + VersionQuery + v);
    assert url[|origin| + 1..] == q + VersionQuery + v;
    assert (q + VersionQuery + v)[|q|..|q| + 3] == VersionQuery;
    assert OccursAt(q + VersionQuery + v, VersionQuery, |q|);
  }
}
