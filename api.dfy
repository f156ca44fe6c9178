/** docs/js/services/api.js: the data layer over `fetch`. The network is a
    parameter: a function from URL to the response it yields, `None` when
    the request itself rejects. */
module Api {
  import opened Wrappers
  import opened Json

  const ArtworksUrl := "js/artworks.json"
  const TranslationsUrl := "js/translations.json"
  const ContactFormUrl := "https://formspree.io/f/xgvbwebq"
  /** `CONFIG.ui.gallery.featuredCount` and `CONFIG.language.default`. */
  const FeaturedCount := 6
  const DefaultLanguage := "en"

  /** A response: its `ok` flag, its status, and what `response.json()`
      gives (`None` when the body is not JSON). */
  datatype Response = Response(ok: bool, status: int, body: Option<Json>)

  /** Why a call rejects. */
  datatype ApiError =
    | NetworkFailure         // `fetch` itself rejected
    | HttpStatus(status: int) // "HTTP error! status: …"
    | BadBody                // `response.json()` rejected
    | NotCallable            // a method called on a value that lacks it
    | NullProperty           // a property read on `null`
    | SubmitFailed           // "Form submission failed"

  type Network = string -> Option<Response>

  /** `fetchJSON(url)`: the parsed body of an `ok` response; every other
      outcome rejects. */
  function FetchJson(net: Network, url: string): (r: Result<Json, ApiError>)
    ensures r.Ok? <==> net(url).Some? && net(url).value.ok && net(url).value.body.Some?
    ensures r.Ok? ==> r.value == net(url).value.body.value
    ensures net(url).None? ==> r == Err(NetworkFailure)
    ensures net(url).Some? && !net(url).value.ok ==> r == Err(HttpStatus(net(url).value.status))
  {
    match net(url)
    case None => Err(NetworkFailure)
    case Some(resp) =>
      if !resp.ok then Err(HttpStatus(resp.status))
      else if resp.body.None? then Err(BadBody)
      else Ok(resp.body.value)
  }

  /** Where `slice(0, count)` stops on a list of `len` elements: a negative
      count counts back from the end, and the end is clamped to the list. */
  function SliceEnd(len: nat, count: int): (e: nat)
    ensures e <= len
    ensures count >= 0 ==> e == if count < len then count else len
    ensures count < 0 ==> e == if len + count > 0 then len + count else 0
  {
    if count < 0 then (if len + count > 0 then len + count else 0)
    else if count < len then count else len
  }

  /** `artworksAPI.getFeatured(count)`, `count` defaulting to six:
      `slice(0, count)` on whatever the file holds. An array gives its first
      artworks in order, a string its first characters (`String.prototype.slice`),
      `null` and every other value reject. */
  function GetFeatured(net: Network, count: Option<int>): (r: Result<Json, ApiError>)
    ensures FetchJson(net, ArtworksUrl).Err? ==> r == Err(FetchJson(net, ArtworksUrl).error)
    ensures FetchJson(net, ArtworksUrl).Ok? && !FetchJson(net, ArtworksUrl).value.JArr?
            && !FetchJson(net, ArtworksUrl).value.JStr?
            ==> r == Err(if FetchJson(net, ArtworksUrl).value == JNull then NullProperty else NotCallable)
    ensures r.Ok? ==> FetchJson(net, ArtworksUrl).Ok?
                      && (FetchJson(net, ArtworksUrl).value.JArr? || FetchJson(net, ArtworksUrl).value.JStr?)
    ensures r.Ok? && FetchJson(net, ArtworksUrl).value.JArr? ==>
      var all := FetchJson(net, ArtworksUrl).value.items;
      var n := count.GetOr(FeaturedCount);
      r.value.JArr? && r.value.items == all[..SliceEnd(|all|, n)]
      && (0 <= n ==> |r.value.items| == if n < |all| then n else |all|)
    ensures r.Ok? && FetchJson(net, ArtworksUrl).value.JStr? ==>
      var text := FetchJson(net, ArtworksUrl).value.s;
      r.value.JStr? && r.value.s == text[..SliceEnd(|text|, count.GetOr(FeaturedCount))]
    ensures FetchJson(net, ArtworksUrl).Ok? && (FetchJson(net, ArtworksUrl).value.JArr? || FetchJson(net, ArtworksUrl).value.JStr?)
            ==> r.Ok?
  {
    var fetched := FetchJson(net, ArtworksUrl);
    if fetched.Err? then Err(fetched.error)
    else var all := fetched.value;
    var n := count.GetOr(FeaturedCount);
    if all == JNull then Err(NullProperty)
    else if all.JArr? then Ok(JArr(all.items[..SliceEnd(|all.items|, n)]))
    else if all.JStr? then Ok(JStr(all.s[..SliceEnd(|all.s|, n)]))
    else Err(NotCallable)
  }

  /** `artwork.id === id` for a primitive id: an object or array never
      equals anything parsed afresh. */
  predicate HasId(artwork: Json, id: Json) {
    !IsObject(id) && Member(artwork, "id") == Some(id)
  }

  /** `artworks.find(artwork => artwork.id === id)`: the first match, or
      `undefined`; reading `.id` of a `null` element rejects. */
  function FindById(artworks: seq<Json>, id: Json): Result<Option<Json>, ApiError>
  {
    if artworks == [] then Ok(None)
    else if artworks[0] == JNull then Err(NullProperty)
    else if HasId(artworks[0], id) then Ok(Some(artworks[0]))
    else FindById(artworks[1..], id)
  }

  /** `find` gives the first matching element before any `null`, and
      nothing when no element matches and none is `null`. */
  lemma {:induction false} FindByIdMeans(artworks: seq<Json>, id: Json)
    ensures FindById(artworks, id).Ok? && FindById(artworks, id).value.Some? ==>
      exists i :: 0 <= i < |artworks| && artworks[i] == FindById(artworks, id).value.value
        && HasId(artworks[i], id)
        && forall j :: 0 <= j < i ==> artworks[j] != JNull && !HasId(artworks[j], id)
    ensures FindById(artworks, id) == Ok(None) <==>
      forall j :: 0 <= j < |artworks| ==> artworks[j] != JNull && !HasId(artworks[j], id)
  {
    FindByIdFound(artworks, id);
    FindByIdNone(artworks, id);
  }

  /** A match found is the first one, with no `null` before it. */
  lemma {:induction false} FindByIdFound(artworks: seq<Json>, id: Json)
    ensures FindById(artworks, id).Ok? && FindById(artworks, id).value.Some? ==>
      exists i :: 0 <= i < |artworks| && artworks[i] == FindById(artworks, id).value.value
        && HasId(artworks[i], id)
        && forall j :: 0 <= j < i ==> artworks[j] != JNull && !HasId(artworks[j], id)
  {
    if artworks != [] && artworks[0] != JNull && !HasId(artworks[0], id) {
      var tail := artworks[1..];
      FindByIdFound(tail, id);
      assert FindById(artworks, id) == FindById(tail, id);
      if FindById(tail, id).Ok? && FindById(tail, id).value.Some? {
        var i :| 0 <= i < |tail| && tail[i] == FindById(tail, id).value.value
          && HasId(tail[i], id)
          && forall j :: 0 <= j < i ==> tail[j] != JNull && !HasId(tail[j], id);
        assert artworks[i + 1] == tail[i];
        forall j | 0 <= j < i + 1
          ensures artworks[j] != JNull && !HasId(artworks[j], id)
        {
          if j > 0 { assert artworks[j] == tail[j - 1]; }
        }
      }
    }
  }

  /** Nothing is found, without a rejection, exactly when no element
      matches and none is `null`. */
  lemma {:induction false} FindByIdNone(artworks: seq<Json>, id: Json)
    ensures FindById(artworks, id) == Ok(None) <==>
      forall j :: 0 <= j < |artworks| ==> artworks[j] != JNull && !HasId(artworks[j], id)
  {
    if artworks != [] && artworks[0] != JNull && !HasId(artworks[0], id) {
      var tail := artworks[1..];
      FindByIdNone(tail, id);
      assert FindById(artworks, id) == FindById(tail, id);
      if forall j :: 0 <= j < |tail| ==> tail[j] != JNull && !HasId(tail[j], id) {
        forall j | 0 <= j < |artworks|
          ensures artworks[j] != JNull && !HasId(artworks[j], id)
        {
          if j > 0 { assert artworks[j] == tail[j - 1]; }
        }
      } else {
        var j :| 0 <= j < |tail| && !(tail[j] != JNull && !HasId(tail[j], id));
        assert artworks[j + 1] == tail[j];
      }
    }
  }

  /** `artworksAPI.getById(id)`: the artwork found, or `null`. */
  function GetById(net: Network, id: Json): (r: Result<Json, ApiError>)
    ensures FetchJson(net, ArtworksUrl).Err? ==> r == Err(FetchJson(net, ArtworksUrl).error)
    ensures r.Ok? ==> FetchJson(net, ArtworksUrl).Ok? && FetchJson(net, ArtworksUrl).value.JArr?
    ensures r.Ok? && r.value != JNull ==>
      var all := FetchJson(net, ArtworksUrl).value.items;
      exists i :: 0 <= i < |all| && all[i] == r.value && HasId(all[i], id)
        && forall j :: 0 <= j < i ==> all[j] != JNull && !HasId(all[j], id)
    ensures FetchJson(net, ArtworksUrl).Ok? && FetchJson(net, ArtworksUrl).value.JArr? ==>
      var all := FetchJson(net, ArtworksUrl).value.items;
      (r == Ok(JNull) <==> forall j :: 0 <= j < |all| ==> all[j] != JNull && !HasId(all[j], id))
  {
    var fetched := FetchJson(net, ArtworksUrl);
    if fetched.Err? then Err(fetched.error)
    else var all := fetched.value;
    if all == JNull then Err(NullProperty)
    else if !all.JArr? then Err(NotCallable)
    else
      var found := FindById(all.items, id);
      FindByIdMeans(all.items, id);
      if found.Err? then Err(found.error)
      else Ok(if found.value.Some? then found.value.value else JNull)
  }

  /** `translationsAPI.getLanguage(lang)`: the language's entry when
      truthy, else the default language's (possibly `undefined`). */
  function GetLanguage(net: Network, lang: string): (r: Result<Option<Json>, ApiError>)
    ensures FetchJson(net, TranslationsUrl).Err? ==> r == Err(FetchJson(net, TranslationsUrl).error)
    ensures FetchJson(net, TranslationsUrl) == Ok(JNull) ==> r == Err(NullProperty)
    ensures r.Ok? ==>
      var t := FetchJson(net, TranslationsUrl).value;
      if TruthyOpt(Member(t, lang)) then r.value == Member(t, lang) else r.value == Member(t, DefaultLanguage)
  {
    var fetched := FetchJson(net, TranslationsUrl);
    if fetched.Err? then Err(fetched.error)
    else var t := fetched.value;
    if t == JNull then Err(NullProperty)
    else if TruthyOpt(Member(t, lang)) then Ok(Member(t, lang))
    else Ok(Member(t, DefaultLanguage))
  }

  /** `contactAPI.submit(data)`: the form is posted, and only an `ok`
      response resolves, to `{success: true}`; the body is not read. */
  function Submit(net: Network): (r: Result<Json, ApiError>)
    ensures r.Ok? <==> net(ContactFormUrl).Some? && net(ContactFormUrl).value.ok
    ensures r.Ok? ==> r.value == JObj(map["success" := JBool(true)])
    ensures net(ContactFormUrl).None? ==> r == Err(NetworkFailure)
    ensures net(ContactFormUrl).Some? && !net(ContactFormUrl).value.ok ==> r == Err(SubmitFailed)
  {
    match net(ContactFormUrl)
    case None => Err(NetworkFailure)
    case Some(resp) => if resp.ok then Ok(JObj(map["success" := JBool(true)])) else Err(SubmitFailed)
  }
}
