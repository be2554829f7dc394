/**
 * The cache-first service worker of public/sw.js: the install step precaches the static
 * assets, the activate step drops every cache of an older version, and the fetch handler
 * answers GET requests outside the API from the caches first, storing static files it had to
 * fetch. The browser's Cache Storage is the class `CacheStorage`; the network is a parameter.
 */
module ServiceWorker {
  import opened Base
  import opened Text
  import opened Seqs

  const CacheName: string := "jywanonton-v2"

  const AssetsToCache: seq<string> := [
    "/", "/index.html", "/about.html", "/css/style.css", "/js/app.js", "/img/logo-dark.png",
    "/img/logo-light.png", "/site.webmanifest", "/favicon.ico", "/android-chrome-192x192.png",
    "/android-chrome-512x512.png"
  ]

  /** A response as the cache keeps it. */
  datatype Response = Response(status: int, body: string)

  /** `response.ok`. */
  predicate IsOk(r: Response) { 200 <= r.status <= 299 }

  /** A request, with its URL split as `new URL(...)` splits it. */
  datatype Request = Request(verb: string, origin: string, pathname: string, search: string)

  /** `request.url`. */
  function Url(r: Request): string
  {
    r.origin + r.pathname + r.search
  }

  /** The fetch handler responds only to GET requests whose path is not under `/api`. */
  predicate Intercepted(r: Request)
  {
    r.verb == "GET" && !StartsWith(r.pathname, "/api")
  }

  /** The test on `event.request.url` before a fetched response is stored: one of six extensions anywhere in it. */
  predicate Storable(url: string)
  {
    Contains(url, ".css") || Contains(url, ".js") || Contains(url, ".png") || Contains(url, ".jpg")
    || Contains(url, ".webp") || Contains(url, ".html")
  }

  /**
   * The test is on substrings of the whole URL, so a `.json` file qualifies through `.js`.
   */
  lemma JsonIsStorable(url: string)
    requires Contains(url, ".json")
    ensures Storable(url)
  {
    var i: nat :| OccursAt(url, ".json", i);
    assert url[i..i + 3] == url[i..i + 5][..3];
    assert OccursAt(url, ".js", i);
  }

  /** No two cache names alike. */
  predicate Distinct(names: seq<string>)
  {
    forall i, j | 0 <= i < j < |names| :: names[i] != names[j]
  }

  /** `caches.match(url)`: the response stored for `url` in the first cache, in creation order, that has one. */
  function FirstMatch(names: seq<string>, caches: map<string, map<string, Response>>, url: string): (r: Option<Response>)
    requires forall k | 0 <= k < |names| :: names[k] in caches
    ensures r.None? <==> forall k | 0 <= k < |names| :: url !in caches[names[k]]
    ensures r.Some? ==> exists k | 0 <= k < |names| ::
      && url in caches[names[k]] && r.value == caches[names[k]][url]
      && forall j | 0 <= j < k :: url !in caches[names[j]]
  {
    if names == [] then None
    else if url in caches[names[0]] then Some(caches[names[0]][url])
    else
      var r := FirstMatch(names[1..], caches, url);
      assert forall k | 1 <= k < |names| :: names[k] == names[1..][k - 1];
      if r.Some? then
        var k :| 0 <= k < |names| - 1 && url in caches[names[1..][k]] && r.value == caches[names[1..][k]][url]
                 && forall j | 0 <= j < k :: url !in caches[names[1..][j]];
        assert url in caches[names[k + 1]] && forall j | 0 <= j < k + 1 :: url !in caches[names[j]];
        r
      else r
  }

  /** The precache `cache.addAll(AssetsToCache)` makes once every asset has been fetched. */
  function Precached(cache: map<string, Response>, origin: string, fetch: string -> Option<Response>, assets: seq<string>): map<string, Response>
    requires forall k | 0 <= k < |assets| :: fetch(origin + assets[k]).Some?
  {
    if assets == [] then cache
    else
      var last := assets[|assets| - 1];
      Precached(cache, origin, fetch, assets[..|assets| - 1])[origin + last := fetch(origin + last).value]
  }

  /** After the precache every asset is stored with the response fetched for it, and nothing else changed. */
  lemma {:induction false} PrecachedHoldsAssets(cache: map<string, Response>, origin: string, fetch: string -> Option<Response>, assets: seq<string>)
    requires forall k | 0 <= k < |assets| :: fetch(origin + assets[k]).Some?
    ensures forall k | 0 <= k < |assets| ::
      origin + assets[k] in Precached(cache, origin, fetch, assets)
      && Precached(cache, origin, fetch, assets)[origin + assets[k]] == fetch(origin + assets[k]).value
    ensures forall u | u in Precached(cache, origin, fetch, assets) ::
      (u in cache && Precached(cache, origin, fetch, assets)[u] == cache[u]) || exists k | 0 <= k < |assets| :: u == origin + assets[k]
  {
    if assets != [] {
      var init := assets[..|assets| - 1];
      PrecachedHoldsAssets(cache, origin, fetch, init);
      forall k | 0 <= k < |assets| - 1 ensures assets[k] == init[k] { }
    }
  }

  /** Every asset fetched from `origin` came back, with an ok status. */
  predicate AllFetched(origin: string, fetch: string -> Option<Response>, assets: seq<string>)
  {
    forall k | 0 <= k < |assets| :: fetch(origin + assets[k]).Some? && IsOk(fetch(origin + assets[k]).value)
  }

  /**
   * `cache.addAll(assets)`: fetch every asset and then store them all at once; a failed or
   * non-ok fetch rejects the whole batch (None) and the cache keeps what it had.
   */
  method AddAll(cache: map<string, Response>, origin: string, fetch: string -> Option<Response>, assets: seq<string>)
    returns (r: Option<map<string, Response>>)
    ensures r.Some? <==> AllFetched(origin, fetch, assets)
    ensures r.Some? ==> r.value == Precached(cache, origin, fetch, assets)
  {
    var batch := cache;
    var k := 0;
    while k < |assets|
      invariant 0 <= k <= |assets|
      invariant AllFetched(origin, fetch, assets[..k])
      invariant batch == Precached(cache, origin, fetch, assets[..k])
    {
      var response := fetch(origin + assets[k]);
      assert assets[..k + 1][..k] == assets[..k];
      if response.None? || !IsOk(response.value) {
        return None;
      }
      assert AllFetched(origin, fetch, assets[..k + 1]) by {
        forall j | 0 <= j < k + 1 ensures assets[..k + 1][j] == assets[j] { }
        forall j | 0 <= j < k ensures assets[..k][j] == assets[j] { }
      }
      batch := batch[origin + assets[k] := response.value];
      k := k + 1;
    }
    assert assets[..k] == assets;
    return Some(batch);
  }

  /** How the fetch handler answers a request. */
  datatype FetchOutcome = NotIntercepted | FromCache(cached: Response) | FromNetwork(fetched: Response) | NetworkError

  /** The browser's Cache Storage for this origin: named caches in creation order. */
  class CacheStorage {
    var names: seq<string>
    var caches: map<string, map<string, Response>>

    ghost predicate Valid()
      reads this
    {
      (forall n :: n in caches <==> n in names) && Distinct(names)
    }

    constructor ()
      ensures Valid() && names == [] && caches == map[]
    {
      names := [];
      caches := map[];
    }

    /** `caches.match(url)`. */
    function Match(url: string): Option<Response>
      reads this
      requires Valid()
    {
      FirstMatch(names, caches, url)
    }

    /** The contents of the named cache, empty when there is none yet. */
    function Contents(name: string): map<string, Response>
      reads this
    {
      if name in caches then caches[name] else map[]
    }

    /** `caches.open(name)`: the named cache, created empty at the end of the order when missing. */
    method Open(name: string)
      requires Valid()
      modifies this
      ensures Valid() && name in caches
      ensures names == if name in old(names) then old(names) else old(names) + [name]
      ensures caches == if name in old(caches) then old(caches) else old(caches)[name := map[]]
    {
      if name !in caches {
        names := names + [name];
        caches := caches[name := map[]];
      }
    }

    /** `caches.delete(name)`. */
    method Delete(name: string)
      requires Valid()
      modifies this
      ensures Valid()
      ensures names == Filter(old(names), (n: string) => n != name)
      ensures caches == old(caches) - {name}
    {
      var kept := Filter(names, (n: string) => n != name);
      FilterKeeps(names, (n: string) => n != name);
      FilterSubsequence(names, (n: string) => n != name);
      DistinctSubsequence(kept, names);
      forall n ensures n in kept <==> n in names && n != name {
        if n in names && n != name {
          var k :| 0 <= k < |names| && names[k] == n;
        }
      }
      names := kept;
      caches := caches - {name};
    }

    /**
     * The install step: open the current cache and `addAll` the assets fetched from `origin`
     * (see `AddAll`). It fails, storing none of them, unless every fetch succeeds.
     */
    method Install(origin: string, fetch: string -> Option<Response>) returns (installed: bool)
      requires Valid()
      modifies this
      ensures Valid() && CacheName in caches
      ensures names == if CacheName in old(names) then old(names) else old(names) + [CacheName]
      ensures installed <==> AllFetched(origin, fetch, AssetsToCache)
      ensures installed ==> caches == old(caches)[CacheName := Precached(old(Contents(CacheName)), origin, fetch, AssetsToCache)]
      ensures !installed ==> caches == old(caches)[CacheName := old(Contents(CacheName))]
    {
      Open(CacheName);
      assert caches[CacheName] == old(Contents(CacheName));
      var added := AddAll(caches[CacheName], origin, fetch, AssetsToCache);
      if added.None? {
        return false;
      }
      caches := caches[CacheName := added.value];
      return true;
    }

    /**
     * The activate step: every cache other than the current one is deleted, and the current
     * one, if present, is kept with its contents.
     */
    method Activate()
      requires Valid()
      modifies this
      ensures Valid()
      ensures names == Filter(old(names), (n: string) => n == CacheName)
      ensures names == if CacheName in old(names) then [CacheName] else []
      ensures forall n | n in caches :: n == CacheName && caches[n] == old(caches)[n]
    {
      var snapshot := names;
      var i := 0;
      while i < |snapshot|
        invariant 0 <= i <= |snapshot|
        invariant Valid()
        invariant names == Filter(snapshot[..i], (n: string) => n == CacheName) + snapshot[i..]
        invariant forall n | n in caches :: n in old(caches) && caches[n] == old(caches)[n]
        invariant CacheName in old(caches) ==> CacheName in caches
      {
        ClearIfOld(snapshot[i], snapshot, i);
        i := i + 1;
      }
      assert snapshot[..i] == snapshot && snapshot[i..] == [];
      ActivatedNames(snapshot);
      OnlyCurrentLeft(names, caches);
    }

    /**
     * What activation does with one name of the snapshot it took, the `i`-th: the cache is
     * deleted unless it is the current one.
     */
    method ClearIfOld(name: string, ghost snapshot: seq<string>, ghost i: nat)
      requires Valid() && Distinct(snapshot) && i < |snapshot| && name == snapshot[i]
      requires names == Filter(snapshot[..i], (n: string) => n == CacheName) + snapshot[i..]
      modifies this
      ensures Valid()
      ensures names == Filter(snapshot[..i + 1], (n: string) => n == CacheName) + snapshot[i + 1..]
      ensures caches == if name == CacheName then old(caches) else old(caches) - {name}
    {
      if name != CacheName {
        DeleteStep(snapshot, i);
        Delete(name);
      } else {
        KeepStep(snapshot, i);
      }
    }

    /**
     * The fetch handler for `request`, with `network` the answer a network fetch would give
     * (None when it fails). Requests it does not intercept go to the network untouched; a
     * request found in a cache is answered from it without the network; any other is fetched,
     * and stored in the current cache when its URL names a static file.
     */
    method HandleFetch(request: Request, network: Option<Response>) returns (out: FetchOutcome)
      requires Valid()
      modifies this
      ensures Valid()
      ensures !Intercepted(request) ==> out == NotIntercepted && caches == old(caches) && names == old(names)
      ensures Intercepted(request) && old(Match(Url(request))).Some? ==>
        out == FromCache(old(Match(Url(request))).value) && caches == old(caches) && names == old(names)
      ensures Intercepted(request) && old(Match(Url(request))).None? && network.None? ==>
        out == NetworkError && caches == old(caches) && names == old(names)
      ensures Intercepted(request) && old(Match(Url(request))).None? && network.Some? ==>
        && out == FromNetwork(network.value)
        && (Storable(Url(request)) ==>
              && caches == old(caches)[CacheName := old(Contents(CacheName))[Url(request) := network.value]]
              && names == if CacheName in old(names) then old(names) else old(names) + [CacheName])
        && (!Storable(Url(request)) ==> caches == old(caches) && names == old(names))
    {
      if request.verb != "GET" {
        return NotIntercepted;
      }
      if StartsWith(request.pathname, "/api") {
        return NotIntercepted;
      }
      var url := Url(request);
      var cached := Match(url);
      if cached.Some? {
        return FromCache(cached.value);
      }
      if network.None? {
        return NetworkError;
      }
      var response := network.value;
      if Storable(url) {
        Put(url, response);
      }
      return FromNetwork(response);
    }

    /** `caches.open(CacheName)` followed by `cache.put(url, response)`. */
    method Put(url: string, response: Response)
      requires Valid()
      modifies this
      ensures Valid()
      ensures names == if CacheName in old(names) then old(names) else old(names) + [CacheName]
      ensures caches == old(caches)[CacheName := old(Contents(CacheName))[url := response]]
    {
      Open(CacheName);
      assert caches[CacheName] == old(Contents(CacheName));
      caches := caches[CacheName := caches[CacheName][url := response]];
    }
  }

  /** Deleting the stale name at position `i` of the activation snapshot advances the loop. */
  lemma DeleteStep(snapshot: seq<string>, i: nat)
    requires Distinct(snapshot) && i < |snapshot| && snapshot[i] != CacheName
    ensures Filter(Filter(snapshot[..i], (n: string) => n == CacheName) + snapshot[i..], (n: string) => n != snapshot[i])
         == Filter(snapshot[..i + 1], (n: string) => n == CacheName) + snapshot[i + 1..]
  {
    var name := snapshot[i];
    var kept := Filter(snapshot[..i], (n: string) => n == CacheName);
    var rest := snapshot[i + 1..];
    KeptBeforeStale(snapshot, i);
    FilterKeeps(snapshot[..i], (n: string) => n == CacheName);
    assert snapshot[i..] == [name] + rest;
    forall k | 0 <= k < |rest| ensures rest[k] != name {
      assert rest[k] == snapshot[i + 1 + k];
    }
    FilterAll(kept, (n: string) => n != name);
    FilterAll(rest, (n: string) => n != name);
    assert kept + snapshot[i..] == (kept + [name]) + rest;
    FilterAppend(kept + [name], rest, (n: string) => n != name);
    FilterAppend(kept, [name], (n: string) => n != name);
    assert Filter([name], (n: string) => n != name) == [];
  }

  /** A stale name adds nothing to the names activation keeps. */
  lemma KeptBeforeStale(snapshot: seq<string>, i: nat)
    requires i < |snapshot| && snapshot[i] != CacheName
    ensures Filter(snapshot[..i + 1], (n: string) => n == CacheName) == Filter(snapshot[..i], (n: string) => n == CacheName)
  {
    assert snapshot[..i + 1] == snapshot[..i] + [snapshot[i]];
    FilterAppend(snapshot[..i], [snapshot[i]], (n: string) => n == CacheName);
    assert Filter([snapshot[i]], (n: string) => n == CacheName) == [];
  }

  /** Keeping the current name at position `i` of the activation snapshot advances the loop. */
  lemma KeepStep(snapshot: seq<string>, i: nat)
    requires i < |snapshot| && snapshot[i] == CacheName
    ensures Filter(snapshot[..i], (n: string) => n == CacheName) + snapshot[i..]
         == Filter(snapshot[..i + 1], (n: string) => n == CacheName) + snapshot[i + 1..]
  {
    assert snapshot[i..] == [CacheName] + snapshot[i + 1..];
    assert snapshot[..i + 1] == snapshot[..i] + [CacheName];
    FilterAppend(snapshot[..i], [CacheName], (n: string) => n == CacheName);
    assert Filter([CacheName], (n: string) => n == CacheName) == [CacheName];
  }

  /** After activation at most the current cache is left. */
  lemma {:induction false} ActivatedNames(names: seq<string>)
    requires Distinct(names)
    ensures Filter(names, (n: string) => n == CacheName) == if CacheName in names then [CacheName] else []
  {
    if names != [] {
      var rest := names[1..];
      assert Distinct(rest) by {
        forall i, j | 0 <= i < j < |rest| ensures rest[i] != rest[j] {
          assert rest[i] == names[i + 1] && rest[j] == names[j + 1];
        }
      }
      ActivatedNames(rest);
      assert names == [names[0]] + rest;
      if names[0] == CacheName {
        assert CacheName !in rest by {
          forall k | 0 <= k < |rest| ensures rest[k] != CacheName {
            assert rest[k] == names[k + 1];
          }
        }
      }
    }
  }

  /** With at most the current name listed, the only cache left is the current one. */
  lemma OnlyCurrentLeft(names: seq<string>, caches: map<string, map<string, Response>>)
    requires forall n :: n in caches <==> n in names
    requires names == [] || names == [CacheName]
    ensures forall n | n in caches :: n == CacheName
  {
  }

  /** A subsequence of distinct names has distinct names. */
  lemma {:induction false} DistinctSubsequence(r: seq<string>, s: seq<string>)
    requires IsSubsequence(r, s) && Distinct(s)
    ensures Distinct(r)
  {
    if r != [] {
      if r[0] == s[0] && IsSubsequence(r[1..], s[1..]) {
        DistinctSubsequence(r[1..], s[1..]);
        forall k | 0 <= k < |r[1..]| ensures r[1..][k] != r[0] {
          SubsequenceMember(r[1..], s[1..], k);
        }
      } else {
        DistinctSubsequence(r, s[1..]);
      }
    }
  }

  /** Every element of a subsequence is an element of the sequence. */
  lemma {:induction false} SubsequenceMember(r: seq<string>, s: seq<string>, k: nat)
    requires IsSubsequence(r, s) && k < |r|
    ensures r[k] in s
  {
    if r[0] == s[0] && IsSubsequence(r[1..], s[1..]) {
      if k > 0 {
        SubsequenceMember(r[1..], s[1..], k - 1);
      }
    } else {
      SubsequenceMember(r, s[1..], k);
    }
  }
}
