/** docs/sw.js: the offline service worker. A fetch handler routes same-origin
    GET requests to one of three caching strategies, each running against the
    browser's Cache Storage (named partitions of URL-keyed responses). The
    network is an `Option<Response>` argument (`None` is a rejected `fetch`),
    and background `cache.put` writes are applied at once. */
module ServiceWorker {
  import opened Wrappers
  import Strings

  /** The parts of a URL the worker looks at; the cache key is the whole value. */
  datatype Url = Url(origin: string, pathname: string, search: string)

  datatype Request = Request(verb: string, url: Url, destination: string)

  datatype Response = Response(status: int, statusText: string, body: string, contentType: string)

  /** `response.ok`. */
  predicate Ok(r: Response) { 200 <= r.status <= 299 }

  const CacheName: string := "branchstone-v1"
  const ImageCache: string := "branchstone-images-v1"
  const ApiCache: string := "branchstone-api-v1"
  const CachePrefix: string := "branchstone-"

  /** Files pre-cached at install, relative to the worker's directory. */
  const StaticAssets: seq<string> := [
    "./", "./index.html", "./gallery.html", "./about.html", "./contact.html",
    "./offline.html", "./css/bundle.css", "./js/app.js", "./js/config.js",
    "./js/i18n.js", "./js/theme-init.js", "./js/artworks.json",
    "./js/translations.json", "./favicon.svg"
  ]

  const OfflinePage: string := "./offline.html"

  /** A `./`-relative path resolved against the worker's directory `dir`
      (which ends in `/`). */
  function AssetUrl(origin: string, dir: string, asset: string): (u: Url)
    ensures u.origin == origin && u.search == ""
    ensures Strings.StartsWith(asset, "./") ==> u.pathname == dir + asset[2..]
  {
    Url(origin, dir + (if Strings.StartsWith(asset, "./") then asset[2..] else asset), "")
  }

  /** The 503 answer of cache-first when neither cache nor network can serve. */
  const OfflineText: Response :=
    Response(503, "Service Unavailable", "Offline - Content not available", "text/plain")

  /** The 503 answer of network-first, a JSON error object. */
  const OfflineJson: Response :=
    Response(503, "Service Unavailable", "{\"error\":\"Offline - Data not available\"}", "application/json")

  // ---------------------------------------------------------------- routing

  datatype Route =
    | NoRoute
    | UseCacheFirst(cache: string)
    | UseStaleWhileRevalidate(cache: string)
    | UseNetworkFirst(cache: string)

  /** Static pages, styles and scripts (and the site root) are cache-first. */
  predicate IsStaticPath(path: string) {
    Strings.EndsWith(path, ".html") || Strings.EndsWith(path, ".css")
    || Strings.EndsWith(path, ".js") || path == "/"
  }

  /** The fetch handler's choice for a request, first matching rule wins. */
  function Classify(req: Request, selfOrigin: string): (r: Route)
    ensures req.verb != "GET" || req.url.origin != selfOrigin ==> r == NoRoute
    ensures r != NoRoute ==> req.verb == "GET" && req.url.origin == selfOrigin
    ensures r.UseStaleWhileRevalidate? <==> r != NoRoute && req.destination == "image"
    ensures r.UseNetworkFirst? ==> r.cache == ApiCache && Strings.EndsWith(req.url.pathname, ".json")
    ensures r.UseCacheFirst? ==> r.cache == CacheName && IsStaticPath(req.url.pathname)
  {
    if req.verb != "GET" then NoRoute
    else if req.url.origin != selfOrigin then NoRoute
    else if req.destination == "image" then UseStaleWhileRevalidate(ImageCache)
    else if Strings.EndsWith(req.url.pathname, ".json") then UseNetworkFirst(ApiCache)
    else if IsStaticPath(req.url.pathname) then UseCacheFirst(CacheName)
    else NoRoute
  }

  /** The first rule wins: an image request goes to the image cache whatever
      its path, a `.json` path is network-first before it could be static, and
      a same-origin GET that matches no rule is not intercepted. */
  lemma ClassifyOrder(req: Request, selfOrigin: string)
    requires req.verb == "GET" && req.url.origin == selfOrigin
    ensures req.destination == "image" ==> Classify(req, selfOrigin) == UseStaleWhileRevalidate(ImageCache)
    ensures req.destination != "image" && Strings.EndsWith(req.url.pathname, ".json")
            ==> Classify(req, selfOrigin) == UseNetworkFirst(ApiCache)
    ensures req.destination != "image" && !Strings.EndsWith(req.url.pathname, ".json")
            ==> (Classify(req, selfOrigin) == UseCacheFirst(CacheName) <==> IsStaticPath(req.url.pathname))
    ensures Classify(req, selfOrigin) == NoRoute
            <==> req.destination != "image" && !Strings.EndsWith(req.url.pathname, ".json")
                 && !IsStaticPath(req.url.pathname)
  {
  }

  // ---------------------------------------------------------- cache storage

  type Partitions = map<string, map<Url, Response>>

  /** The partition `name` exists and holds `url`. */
  predicate InPart(parts: Partitions, name: string, url: Url) {
    name in parts && url in parts[name]
  }

  /** `caches.match(url)`: the partitions are searched in creation order and the
      first one holding the URL answers. */
  function MatchAll(order: seq<string>, parts: Partitions, url: Url): Option<Response> {
    if order == [] then None
    else if InPart(parts, order[0], url) then Some(parts[order[0]][url])
    else MatchAll(order[1..], parts, url)
  }

  /** The global lookup finds a response iff some partition holds the URL, and
      the response found is the one in the first such partition. */
  lemma {:induction false} MatchAllFirst(order: seq<string>, parts: Partitions, url: Url)
    ensures var r := MatchAll(order, parts, url);
      r.Some? <==> exists i :: 0 <= i < |order| && InPart(parts, order[i], url)
    ensures var r := MatchAll(order, parts, url);
      r.Some? ==> exists i :: 0 <= i < |order| && InPart(parts, order[i], url)
                    && r.value == parts[order[i]][url]
                    && forall j :: 0 <= j < i ==> !InPart(parts, order[j], url)
  {
    if order != [] && !InPart(parts, order[0], url) {
      MatchAllFirst(order[1..], parts, url);
      var r := MatchAll(order[1..], parts, url);
      if r.Some? {
        var i :| 0 <= i < |order[1..]| && InPart(parts, order[1..][i], url)
                 && r.value == parts[order[1..][i]][url]
                 && forall j :: 0 <= j < i ==> !InPart(parts, order[1..][j], url);
        assert InPart(parts, order[i + 1], url);
        forall j | 0 <= j < i + 1 ensures !InPart(parts, order[j], url) {
          if j > 0 { assert order[j] == order[1..][j - 1]; }
        }
      } else {
        forall i | 0 <= i < |order| ensures !InPart(parts, order[i], url) {
          if i > 0 { assert order[i] == order[1..][i - 1]; }
        }
      }
    } else if order != [] {
      assert InPart(parts, order[0], url);
    }
  }

  /** `caches.open(name)` on the partition map: creates it empty when absent. */
  function OpenParts(parts: Partitions, name: string): (r: Partitions)
    ensures name in r && r.Keys == parts.Keys + {name}
    ensures forall n :: n in parts ==> r[n] == parts[n]
  {
    if name in parts then parts else parts[name := map[]]
  }

  /** `caches.open(name)` on the creation order: a new name goes last. */
  function OpenOrder(order: seq<string>, parts: Partitions, name: string): seq<string> {
    if name in parts then order else order + [name]
  }

  /** The Cache API's `put` (and `addAll`) reject a partial response, status
      206, and store nothing. */
  predicate Cacheable(r: Response) {
    r.status != 206
  }

  /** `caches.open(name)` followed by `cache.put(url, resp)`: a partial
      response leaves the opened partition as it was. */
  function PutParts(parts: Partitions, name: string, url: Url, resp: Response): (r: Partitions)
    ensures r.Keys == parts.Keys + {name}
    ensures Cacheable(resp) ==> r[name] == OpenParts(parts, name)[name][url := resp]
    ensures !Cacheable(resp) ==> r == OpenParts(parts, name)
    ensures forall n :: n in parts && n != name ==> r[n] == parts[n]
  {
    var p := OpenParts(parts, name);
    if Cacheable(resp) then p[name := p[name][url := resp]] else p
  }

  /** The creation order lists each partition exactly once. */
  ghost predicate Consistent(order: seq<string>, parts: Partitions) {
    Distinct(order) && (forall n :: n in parts <==> n in order)
  }

  lemma OpenKeepsConsistent(order: seq<string>, parts: Partitions, name: string, url: Url, resp: Response)
    requires Consistent(order, parts)
    ensures Consistent(OpenOrder(order, parts, name), OpenParts(parts, name))
    ensures Consistent(OpenOrder(order, parts, name), PutParts(parts, name, url, resp))
  {
  }

  /** A response put into a partition is found by the next global lookup; when
      no partition held the URL before, it is exactly the response put. A
      partial response is not stored, and every lookup answers as before. */
  lemma {:induction false} PutThenMatch(order: seq<string>, parts: Partitions, name: string, url: Url, resp: Response)
    requires Consistent(order, parts)
    ensures Cacheable(resp) ==> MatchAll(OpenOrder(order, parts, name), PutParts(parts, name, url, resp), url).Some?
    ensures Cacheable(resp) && MatchAll(order, parts, url).None?
            ==> MatchAll(OpenOrder(order, parts, name), PutParts(parts, name, url, resp), url) == Some(resp)
    ensures !Cacheable(resp) ==> forall u ::
              MatchAll(OpenOrder(order, parts, name), PutParts(parts, name, url, resp), u) == MatchAll(order, parts, u)
  {
    if !Cacheable(resp) {
      forall u ensures MatchAll(OpenOrder(order, parts, name), OpenParts(parts, name), u) == MatchAll(order, parts, u) {
        if name !in parts { MatchAllOpen(order, parts, name, u); }
      }
      return;
    }
    var order' := OpenOrder(order, parts, name);
    var parts' := PutParts(parts, name, url, resp);
    var k :| 0 <= k < |order'| && order'[k] == name;
    assert InPart(parts', order'[k], url);
    MatchAllFirst(order', parts', url);
    MatchAllFirst(order, parts, url);
    if MatchAll(order, parts, url).None? {
      var r := MatchAll(order', parts', url);
      var i :| 0 <= i < |order'| && InPart(parts', order'[i], url) && r.value == parts'[order'[i]][url]
               && forall j :: 0 <= j < i ==> !InPart(parts', order'[j], url);
      assert order'[i] == name;
    }
  }

  /** Opening a new, empty partition changes no lookup: it is searched last
      and holds nothing. */
  lemma {:induction false} MatchAllOpen(order: seq<string>, parts: Partitions, name: string, url: Url)
    requires name !in parts && forall n :: n in order ==> n in parts
    ensures MatchAll(order + [name], parts[name := map[]], url) == MatchAll(order, parts, url)
  {
    var parts' := parts[name := map[]];
    if order == [] {
      assert !InPart(parts', name, url);
      assert ([] + [name])[1..] == [];
    } else {
      assert (order + [name])[0] == order[0] && (order + [name])[1..] == order[1..] + [name];
      assert order[0] in parts && order[0] != name;
      assert InPart(parts', order[0], url) == InPart(parts, order[0], url);
      MatchAllOpen(order[1..], parts, name, url);
    }
  }

  /** A Cache-Storage name the activate handler deletes: an old version of one
      of this site's caches. */
  predicate IsStale(name: string) {
    Strings.StartsWith(name, CachePrefix) && name != CacheName && name != ImageCache && name != ApiCache
  }

  /** The partitions left after activation, in creation order. */
  function Survivors(order: seq<string>): (r: seq<string>)
    ensures forall n :: n in r <==> n in order && !IsStale(n)
  {
    if order == [] then []
    else
      var rest := Survivors(order[..|order| - 1]);
      assert order == order[..|order| - 1] + [order[|order| - 1]];
      if IsStale(order[|order| - 1]) then rest else rest + [order[|order| - 1]]
  }

  /** No name occurs twice. */
  predicate Distinct(s: seq<string>) {
    forall i, j :: 0 <= i < j < |s| ==> s[i] != s[j]
  }

  lemma DistinctCons(x: string, s: seq<string>)
    ensures Distinct([x] + s) <==> x !in s && Distinct(s)
  {
    if Distinct([x] + s) {
      forall j | 0 <= j < |s| ensures s[j] != x { assert ([x] + s)[0] != ([x] + s)[j + 1]; }
      forall i, j | 0 <= i < j < |s| ensures s[i] != s[j] { assert ([x] + s)[i + 1] != ([x] + s)[j + 1]; }
    }
  }

  /** Removes every occurrence of `name`. */
  function Without(s: seq<string>, name: string): (r: seq<string>)
    ensures forall n :: n in r <==> n in s && n != name
  {
    if s == [] then [] else (if s[0] == name then [] else [s[0]]) + Without(s[1..], name)
  }

  lemma {:induction false} WithoutAbsent(s: seq<string>, name: string)
    requires name !in s
    ensures Without(s, name) == s
  {
    if s != [] { WithoutAbsent(s[1..], name); }
  }

  lemma {:induction false} WithoutKeepsDistinct(s: seq<string>, name: string)
    requires Distinct(s)
    ensures Distinct(Without(s, name))
  {
    if s != [] {
      assert s == [s[0]] + s[1..];
      DistinctCons(s[0], s[1..]);
      WithoutKeepsDistinct(s[1..], name);
      if s[0] != name {
        DistinctCons(s[0], Without(s[1..], name));
      }
    }
  }

  /** Removing a name that occurs once, between `a` and `b`, leaves `a + b`. */
  lemma {:induction false} WithoutMiddle(a: seq<string>, x: string, b: seq<string>)
    requires x !in a && x !in b
    ensures Without(a + ([x] + b), x) == a + b
  {
    if a == [] {
      assert a + ([x] + b) == [x] + b;
      assert ([x] + b)[1..] == b;
      WithoutAbsent(b, x);
    } else {
      assert (a + ([x] + b))[0] == a[0];
      assert (a + ([x] + b))[1..] == a[1..] + ([x] + b);
      WithoutMiddle(a[1..], x, b);
      assert a + b == [a[0]] + (a[1..] + b);
    }
  }

  /** One step of activation: deleting the next name when it is stale keeps the
      creation order equal to the survivors so far followed by the names not
      yet visited. */
  lemma {:induction false} ActivateStep(names: seq<string>, i: nat)
    requires Distinct(names) && i < |names|
    ensures var order := Survivors(names[..i]) + names[i..];
      Survivors(names[..i + 1]) + names[i + 1..]
        == if IsStale(names[i]) then Without(order, names[i]) else order
  {
    var x, done, rest := names[i], Survivors(names[..i]), names[i + 1..];
    assert names[..i + 1][..i] == names[..i];
    assert Survivors(names[..i + 1]) == if IsStale(x) then done else done + [x];
    assert names[i..] == [x] + rest;
    if IsStale(x) {
      assert x !in rest by {
        forall k | 0 <= k < |rest| ensures rest[k] != x { assert rest[k] == names[i + 1 + k]; }
      }
      assert x !in done by {
        forall k | 0 <= k < i ensures names[..i][k] != x { assert names[..i][k] == names[k]; }
      }
      WithoutMiddle(done, x, rest);
    } else {
      assert done + [x] + rest == done + ([x] + rest);
    }
  }

  /** Browser Cache Storage: partitions by name, and their creation order,
      which is the order `caches.match` searches. */
  class CacheStorage {
    var order: seq<string>
    var parts: Partitions

    ghost predicate Valid()
      reads this
    {
      Consistent(order, parts)
    }

    constructor ()
      ensures Valid() && order == [] && parts == map[]
    {
      order := [];
      parts := map[];
    }

    /** `caches.open(name)`. */
    method Open(name: string)
      requires Valid()
      modifies this
      ensures Valid()
      ensures order == OpenOrder(old(order), old(parts), name)
      ensures parts == OpenParts(old(parts), name)
    {
      if name !in parts {
        order := order + [name];
        parts := parts[name := map[]];
      }
    }

    /** `cache.put(url, resp)` on an open partition; a partial response is
        refused and nothing changes. */
    method Put(name: string, url: Url, resp: Response)
      requires Valid() && name in parts
      modifies this
      ensures Valid() && order == old(order)
      ensures Cacheable(resp) ==> parts == old(parts)[name := old(parts)[name][url := resp]]
      ensures !Cacheable(resp) ==> parts == old(parts)
    {
      if Cacheable(resp) {
        parts := parts[name := parts[name][url := resp]];
      }
    }

    /** `caches.delete(name)`; the result says whether the partition existed. */
    method Delete(name: string) returns (existed: bool)
      requires Valid()
      modifies this
      ensures Valid()
      ensures existed == (name in old(parts))
      ensures parts == old(parts) - {name}
      ensures order == Without(old(order), name)
    {
      existed := name in parts;
      parts := parts - {name};
      order := Without(order, name);
      WithoutKeepsDistinct(old(order), name);
    }
  }

  // ------------------------------------------------------------ strategies

  /** What cache-first leaves behind: the answer `resp` and the store `order`,
      `parts` after starting from `order0`, `parts0`. */
  ghost predicate CacheFirstServed(order0: seq<string>, parts0: Partitions, req: Request, name: string,
                                   net: Option<Response>, origin: string, dir: string,
                                   order: seq<string>, parts: Partitions, resp: Response)
  {
    var hit := MatchAll(order0, parts0, req.url);
    if hit.Some? then
      resp == hit.value && order == order0 && parts == parts0
    else if net.Some? then
      resp == net.value
      && (Ok(net.value) ==> order == OpenOrder(order0, parts0, name)
                            && parts == PutParts(parts0, name, req.url, net.value))
      && (!Ok(net.value) ==> order == order0 && parts == parts0)
    else
      order == order0 && parts == parts0
      && resp == OfflineFallback(req, MatchAll(order0, parts0, AssetUrl(origin, dir, OfflinePage)))
  }

  /** `cacheFirstWithNetworkFallback`: any cached copy wins; otherwise the
      network answer is returned and, when ok, put into `name` (a partial
      response is refused by `put`); when the
      network fails a page request falls back to the cached offline page and
      everything else gets a 503 text response. */
  method CacheFirstWithNetworkFallback(store: CacheStorage, req: Request, name: string,
                                       net: Option<Response>, origin: string, dir: string)
    returns (resp: Response)
    requires store.Valid()
    modifies store
    ensures store.Valid()
    ensures CacheFirstServed(old(store.order), old(store.parts), req, name, net, origin, dir,
                             store.order, store.parts, resp)
  {
    var hit := MatchAll(store.order, store.parts, req.url);
    if hit.Some? {
      return hit.value;
    }
    match net
    case Some(r) =>
      if Ok(r) {
        store.Open(name);
        store.Put(name, req.url, r);
      }
      resp := r;
    case None =>
      resp := OfflineFallback(req, MatchAll(store.order, store.parts, AssetUrl(origin, dir, OfflinePage)));
  }

  /** The answer of cache-first when the network rejects, given the cached
      offline page (if any). */
  function OfflineFallback(req: Request, offline: Option<Response>): (r: Response)
    ensures req.destination == "document" && offline.Some? ==> r == offline.value
    ensures req.destination != "document" || offline.None? ==> r == OfflineText
  {
    if req.destination == "document" && offline.Some? then offline.value else OfflineText
  }

  datatype Outcome = NotIntercepted | Respond(response: Response) | Rejected

  /** What stale-while-revalidate leaves behind, from `order0`, `parts0`. */
  ghost predicate StaleServed(order0: seq<string>, parts0: Partitions, req: Request, name: string,
                              net: Option<Response>, order: seq<string>, parts: Partitions, out: Outcome)
  {
    var opn := OpenParts(parts0, name);
    (req.url in opn[name] ==> out == Respond(opn[name][req.url]))
    && (req.url !in opn[name] && net.Some? ==> out == Respond(net.value))
    && (req.url !in opn[name] && net.None? ==> out == Rejected)
    && order == OpenOrder(order0, parts0, name)
    && if net.Some? && Ok(net.value)
       then parts == PutParts(parts0, name, req.url, net.value)
       else parts == OpenParts(parts0, name)
  }

  /** `staleWhileRevalidate`: opens `name`, answers from that partition when it
      holds the URL and from the network otherwise; an ok network response is
      put in either case, and a partial one refused. With nothing cached a network failure is not
      caught and the answer rejects. */
  method StaleWhileRevalidate(store: CacheStorage, req: Request, name: string, net: Option<Response>)
    returns (out: Outcome)
    requires store.Valid()
    modifies store
    ensures store.Valid()
    ensures StaleServed(old(store.order), old(store.parts), req, name, net, store.order, store.parts, out)
  {
    store.Open(name);
    var cached: Option<Response> := if req.url in store.parts[name] then Some(store.parts[name][req.url]) else None;
    if net.Some? && Ok(net.value) {
      store.Put(name, req.url, net.value);
    }
    if cached.Some? {
      out := Respond(cached.value);
    } else if net.Some? {
      out := Respond(net.value);
    } else {
      out := Rejected;
    }
  }

  /** What network-first leaves behind, from `order0`, `parts0`. */
  ghost predicate NetworkFirstServed(order0: seq<string>, parts0: Partitions, req: Request, name: string,
                                     net: Option<Response>, order: seq<string>, parts: Partitions, resp: Response)
  {
    (net.Some? ==> resp == net.value)
    && (net.Some? && Ok(net.value) ==>
          order == OpenOrder(order0, parts0, name) && parts == PutParts(parts0, name, req.url, net.value))
    && (net.None? || !Ok(net.value) ==> order == order0 && parts == parts0)
    && (net.None? ==> resp == MatchAll(order0, parts0, req.url).GetOr(OfflineJson))
  }

  /** `networkFirstWithCache`: the network answer is returned (and put into
      `name` when ok, where a partial response is refused); when the network fails any cached copy is returned, and
      without one a 503 JSON error. */
  method NetworkFirstWithCache(store: CacheStorage, req: Request, name: string, net: Option<Response>)
    returns (resp: Response)
    requires store.Valid()
    modifies store
    ensures store.Valid()
    ensures NetworkFirstServed(old(store.order), old(store.parts), req, name, net, store.order, store.parts, resp)
  {
    match net
    case Some(r) =>
      if Ok(r) {
        store.Open(name);
        store.Put(name, req.url, r);
      }
      resp := r;
    case None =>
      resp := MatchAll(store.order, store.parts, req.url).GetOr(OfflineJson);
  }

  /** The fetch event: requests the classifier does not route are left to the
      browser and the store is untouched; every routed request is answered,
      and the store changed, exactly as its route's strategy does on the
      route's cache. */
  method HandleFetch(store: CacheStorage, req: Request, selfOrigin: string, net: Option<Response>, dir: string)
    returns (out: Outcome)
    requires store.Valid()
    modifies store
    ensures store.Valid()
    ensures Classify(req, selfOrigin) == NoRoute ==>
              out == NotIntercepted && store.order == old(store.order) && store.parts == old(store.parts)
    ensures Classify(req, selfOrigin) != NoRoute ==> out != NotIntercepted
    ensures Classify(req, selfOrigin).UseCacheFirst? ==>
              out.Respond? && CacheFirstServed(old(store.order), old(store.parts), req, CacheName, net,
                                               selfOrigin, dir, store.order, store.parts, out.response)
    ensures Classify(req, selfOrigin).UseNetworkFirst? ==>
              out.Respond? && NetworkFirstServed(old(store.order), old(store.parts), req, ApiCache, net,
                                                 store.order, store.parts, out.response)
    ensures Classify(req, selfOrigin).UseStaleWhileRevalidate? ==>
              StaleServed(old(store.order), old(store.parts), req, ImageCache, net,
                          store.order, store.parts, out)
  {
    match Classify(req, selfOrigin)
    case NoRoute =>
      out := NotIntercepted;
    case UseStaleWhileRevalidate(c) =>
      out := StaleWhileRevalidate(store, req, c, net);
    case UseNetworkFirst(c) =>
      var r := NetworkFirstWithCache(store, req, c, net);
      out := Respond(r);
    case UseCacheFirst(c) =>
      var r := CacheFirstWithNetworkFallback(store, req, c, net, selfOrigin, dir);
      out := Respond(r);
  }

  /** A cache-first request that missed and was served by an ok network answer
      is served from the cache the next time, without the network; a partial
      answer is not stored, so the next request misses again. */
  lemma CacheFirstMissThenHit(order: seq<string>, parts: Partitions, req: Request, r: Response)
    requires Consistent(order, parts)
    requires MatchAll(order, parts, req.url).None?
    ensures MatchAll(OpenOrder(order, parts, CacheName), PutParts(parts, CacheName, req.url, r), req.url)
            == if Cacheable(r) then Some(r) else None
  {
    PutThenMatch(order, parts, CacheName, req.url, r);
  }

  // -------------------------------------------------------------- lifecycle

  /** The URLs pre-cached at install. */
  function AssetUrls(origin: string, dir: string): (us: seq<Url>)
    ensures |us| == |StaticAssets|
    ensures forall i :: 0 <= i < |us| ==> us[i] == AssetUrl(origin, dir, StaticAssets[i])
  {
    seq(|StaticAssets|, i requires 0 <= i < |StaticAssets| => AssetUrl(origin, dir, StaticAssets[i]))
  }

  /** The network gives an ok response for `url` that `addAll` accepts: the
      status is 2xx and not the partial 206. */
  predicate FetchedOk(fetch: Url -> Option<Response>, url: Url) {
    fetch(url).Some? && Ok(fetch(url).value) && Cacheable(fetch(url).value)
  }

  /** `cache.addAll` once every fetch has succeeded: each URL is put, in
      order, with its response. */
  function PutAll(m: map<Url, Response>, urls: seq<Url>, fetch: Url -> Option<Response>): map<Url, Response>
    requires forall u :: u in urls ==> fetch(u).Some?
  {
    if urls == [] then m
    else
      var last := urls[|urls| - 1];
      assert forall u :: u in urls[..|urls| - 1] ==> u in urls;
      PutAll(m, urls[..|urls| - 1], fetch)[last := fetch(last).value]
  }

  /** After `addAll` the partition holds its old entries and every URL put,
      each put URL with its fetched response and every other entry as before. */
  lemma {:induction false} PutAllContents(m: map<Url, Response>, urls: seq<Url>, fetch: Url -> Option<Response>)
    requires forall u :: u in urls ==> fetch(u).Some?
    ensures forall u :: u in PutAll(m, urls, fetch) <==> u in m || u in urls
    ensures forall u :: u in urls ==> PutAll(m, urls, fetch)[u] == fetch(u).value
    ensures forall u :: u in PutAll(m, urls, fetch) && u !in urls ==> PutAll(m, urls, fetch)[u] == m[u]
  {
    if urls != [] {
      var init, last := urls[..|urls| - 1], urls[|urls| - 1];
      assert urls == init + [last];
      PutAllContents(m, init, fetch);
    }
  }

  /** `cache.addAll(urls)` on the open partition `name`: every URL is fetched
      first; when all responses are ok they are all stored, otherwise nothing
      is. */
  method AddAll(store: CacheStorage, name: string, urls: seq<Url>, fetch: Url -> Option<Response>)
    returns (ok: bool)
    requires store.Valid() && name in store.parts
    modifies store
    ensures store.Valid() && store.order == old(store.order)
    ensures ok <==> forall u :: u in urls ==> FetchedOk(fetch, u)
    ensures !ok ==> store.parts == old(store.parts)
    ensures ok ==> store.parts == old(store.parts)[name := PutAll(old(store.parts)[name], urls, fetch)]
  {
    var i := 0;
    while i < |urls|
      invariant 0 <= i <= |urls|
      invariant forall k :: 0 <= k < i ==> FetchedOk(fetch, urls[k])
    {
      if !FetchedOk(fetch, urls[i]) {
        return false;
      }
      i := i + 1;
    }
    assert forall u :: u in urls ==> FetchedOk(fetch, u);
    assert forall u :: u in urls ==> fetch(u).Some?;
    ghost var base := store.parts;
    i := 0;
    while i < |urls|
      invariant 0 <= i <= |urls| && store.Valid() && name in base
      invariant store.order == old(store.order)
      invariant store.parts == base[name := PutAll(base[name], urls[..i], fetch)]
    {
      PutNth(store, base, name, urls, i, fetch);
      i := i + 1;
    }
    assert urls[..i] == urls;
    ok := true;
  }

  /** The install event: opens `branchstone-v1` and adds all the static
      assets to it. */
  method Install(store: CacheStorage, origin: string, dir: string, fetch: Url -> Option<Response>)
    returns (ok: bool)
    requires store.Valid()
    modifies store
    ensures store.Valid()
    ensures ok <==> forall u :: u in AssetUrls(origin, dir) ==> FetchedOk(fetch, u)
    ensures store.order == OpenOrder(old(store.order), old(store.parts), CacheName)
    ensures !ok ==> store.parts == OpenParts(old(store.parts), CacheName)
    ensures ok ==> store.parts == OpenParts(old(store.parts), CacheName)[CacheName :=
                     PutAll(OpenParts(old(store.parts), CacheName)[CacheName], AssetUrls(origin, dir), fetch)]
  {
    store.Open(CacheName);
    ok := AddAll(store, CacheName, AssetUrls(origin, dir), fetch);
  }

  /** One round of `addAll`'s puts: the `i`-th URL goes into `name`. */
  method PutNth(store: CacheStorage, ghost base: Partitions, name: string, urls: seq<Url>, i: nat,
                fetch: Url -> Option<Response>)
    requires store.Valid() && name in base && i < |urls|
    requires (forall u :: u in urls ==> fetch(u).Some?) && FetchedOk(fetch, urls[i])
    requires store.parts == base[name := PutAll(base[name], urls[..i], fetch)]
    modifies store
    ensures store.Valid() && store.order == old(store.order)
    ensures store.parts == base[name := PutAll(base[name], urls[..i + 1], fetch)]
  {
    assert urls[..i + 1][..i] == urls[..i];
    store.Put(name, urls[i], fetch(urls[i]).value);
  }

  /** Every static asset is in `branchstone-v1` after a successful install, and
      a later cache-first request for it is answered from the cache. */
  lemma InstalledAssetsAreHits(order: seq<string>, parts: Partitions, origin: string, dir: string, i: nat)
    requires Consistent(order, parts) && CacheName in parts
    requires i < |StaticAssets|
    requires AssetUrl(origin, dir, StaticAssets[i]) in parts[CacheName]
    ensures MatchAll(order, parts, AssetUrl(origin, dir, StaticAssets[i])).Some?
  {
    var k :| 0 <= k < |order| && order[k] == CacheName;
    assert InPart(parts, order[k], AssetUrl(origin, dir, StaticAssets[i]));
    MatchAllFirst(order, parts, AssetUrl(origin, dir, StaticAssets[i]));
  }

  /** The activate event: every stale partition is deleted, in creation order. */
  method Activate(store: CacheStorage)
    requires store.Valid()
    modifies store
    ensures store.Valid()
    ensures store.order == Survivors(old(store.order))
    ensures store.parts == map n | n in old(store.parts) && !IsStale(n) :: old(store.parts)[n]
  {
    var names := store.order;
    var i := 0;
    while i < |names|
      invariant 0 <= i <= |names|
      invariant Distinct(names)
      invariant store.Valid()
      invariant store.order == Survivors(names[..i]) + names[i..]
      invariant forall n :: n in store.parts ==> store.parts[n] == old(store.parts)[n]
    {
      DeleteIfStale(store, names, i);
      i := i + 1;
    }
    assert names[..i] == names;
    ActivateResult(names, old(store.parts), store.order, store.parts);
  }

  /** The body of the activation loop: visits `names[i]`. */
  method DeleteIfStale(store: CacheStorage, names: seq<string>, i: nat)
    requires Distinct(names) && i < |names|
    requires store.Valid() && store.order == Survivors(names[..i]) + names[i..]
    modifies store
    ensures store.Valid() && store.order == Survivors(names[..i + 1]) + names[i + 1..]
    ensures store.parts == if IsStale(names[i]) then old(store.parts) - {names[i]} else old(store.parts)
  {
    ActivateStep(names, i);
    if IsStale(names[i]) {
      var _ := store.Delete(names[i]);
    }
  }

  lemma ActivateResult(names: seq<string>, before: Partitions, order: seq<string>, after: Partitions)
    requires Consistent(names, before) && Consistent(order, after)
    requires order == Survivors(names)
    requires forall n :: n in after ==> after[n] == before[n]
    ensures after == map n | n in before && !IsStale(n) :: before[n]
  {
  }

  /** After activation the only site caches left are this version's three,
      and each of those that existed before is still there. */
  lemma ActivateKeeps(order: seq<string>)
    ensures forall n :: n in Survivors(order) && Strings.StartsWith(n, CachePrefix)
                        ==> n == CacheName || n == ImageCache || n == ApiCache
    ensures forall n :: n in order && !Strings.StartsWith(n, CachePrefix) ==> n in Survivors(order)
    ensures CacheName in order ==> CacheName in Survivors(order)
    ensures ImageCache in order ==> ImageCache in Survivors(order)
    ensures ApiCache in order ==> ApiCache in Survivors(order)
  {
  }
}
