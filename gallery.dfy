/** docs/js/components/Gallery.js: the artwork grid and the featured strip.
    Artworks are the parsed JSON records; the container is the list of
    its children, and `createElement`'s attribute writes become the text
    values an attribute or dataset assignment produces. */
module Gallery {
  import opened Wrappers
  import opened Json
  import Strings
  import Api

  /** `CONFIG.ui.gallery.lazyLoadThreshold`. */
  const LazyLoadThreshold := 3
  /** `showSkeletons`' count. */
  const SkeletonCount := 4
  const GallerySizes := "(max-width: 768px) 50vw, 25vw"
  const FeaturedSizes := "(max-width: 768px) 100vw, (max-width: 1024px) 50vw, 33vw"

  // ------------------------------------------------------------ pictures

  /** `/\.(jpg|jpeg)$/i.test(path)`. */
  predicate IsJpegPath(path: string) {
    Strings.EndsWithIgnoreCase(path, ".jpg") || Strings.EndsWithIgnoreCase(path, ".jpeg")
  }

  /** `toWebP`: a trailing `.jpg` or `.jpeg`, in any case, becomes `.webp`;
      any other path is returned as it is. */
  function ToWebP(path: string): (r: string)
    ensures !IsJpegPath(path) ==> r == path
    ensures IsJpegPath(path) ==>
      Strings.EndsWith(r, ".webp") && Strings.StartsWith(path, r[..|r| - 5])
      && Strings.ToLower(path[|r| - 5..]) in {".jpg", ".jpeg"}
  {
    assert forall k :: 0 <= k <= |path| ==> Strings.ToLower(path[k..]) == Strings.ToLower(path)[k..];
    if Strings.EndsWithIgnoreCase(path, ".jpeg") then path[..|path| - 5] + ".webp"
    else if Strings.EndsWithIgnoreCase(path, ".jpg") then path[..|path| - 4] + ".webp"
    else path
  }

  /** A `<source>` element: its type, `srcset` and, when set, `sizes`. */
  datatype Source = Source(mime: string, srcset: string, sizes: Option<string>)

  /** The `<img>`: the source it ends up showing, the low-quality
      placeholder it shows first, and its attributes. */
  datatype Img = Img(src: string, placeholder: Option<string>, alt: string, loading: string,
                     width: string, height: string, highPriority: bool,
                     srcset: Option<string>, sizes: Option<string>)

  datatype Picture = Picture(sources: seq<Source>, img: Img)

  /** `useThumbnail ? (artwork.thumb || artwork.image) : artwork.image`. */
  function ImageSource(artwork: Json, useThumbnail: bool): Option<Json> {
    if useThumbnail && TruthyOpt(Member(artwork, "thumb")) then Member(artwork, "thumb")
    else Member(artwork, "image")
  }

  /** `artwork.srcset?.[key]`. */
  function SrcsetPart(artwork: Json, key: string): Option<Json> {
    var s := Member(artwork, "srcset");
    if s.Some? then Member(s.value, key) else None
  }

  /** The image source would get an auto-generated WebP sibling. */
  predicate AutoWebP(artwork: Json, useThumbnail: bool) {
    var src := ImageSource(artwork, useThumbnail);
    !TruthyOpt(SrcsetPart(artwork, "webp")) && TruthyOpt(src) && IsJpegPath(ToText(src.value))
  }

  /** `createResponsivePicture` throws: a non-string source whose text ends
      in `.jpg` has no `replace`. */
  predicate PictureThrows(artwork: Json, useThumbnail: bool) {
    AutoWebP(artwork, useThumbnail) && !ImageSource(artwork, useThumbnail).value.JStr?
  }

  /** The `<source>` for WebP, if any. */
  function WebPSource(artwork: Json, useThumbnail: bool, sizes: string): seq<Source> {
    if TruthyOpt(SrcsetPart(artwork, "webp")) then
      [Source("image/webp", ToText(SrcsetPart(artwork, "webp").value), Some(sizes))]
    else if AutoWebP(artwork, useThumbnail) then
      [Source("image/webp", ToWebP(ToText(ImageSource(artwork, useThumbnail).value)), None)]
    else []
  }

  /** The `<source>` for JPEG, if any. */
  function JpegSource(artwork: Json, sizes: string): seq<Source> {
    var jpeg := SrcsetPart(artwork, "jpeg");
    if TruthyOpt(jpeg) then [Source("image/jpeg", ToText(jpeg.value), Some(sizes))] else []
  }

  /** The `<img>` element. */
  function ImgFor(artwork: Json, loading: string, sizes: string, useThumbnail: bool, priority: bool): Img {
    var jpeg := SrcsetPart(artwork, "jpeg");
    var srcset := Member(artwork, "srcset");
    var imgSrcset :=
      if TruthyOpt(jpeg) && !useThumbnail then Some(ToText(jpeg.value))
      else if TruthyOpt(srcset) && srcset.value.JStr? then Some(srcset.value.s)
      else None;
    Img(OptText(ImageSource(artwork, useThumbnail)),
        if TruthyOpt(Member(artwork, "lqip")) then Some(ToText(Member(artwork, "lqip").value)) else None,
        OptText(Member(artwork, "title")), loading,
        TextOr(Member(artwork, "width"), "400"), TextOr(Member(artwork, "height"), "500"),
        priority, imgSrcset, if imgSrcset.Some? then Some(sizes) else None)
  }

  /** `createResponsivePicture(artwork, options)`; `None` where it throws. */
  function ResponsivePicture(artwork: Json, loading: string, sizes: string, useThumbnail: bool,
                             priority: bool): Option<Picture>
  {
    if PictureThrows(artwork, useThumbnail) then None
    else Some(Picture(WebPSource(artwork, useThumbnail, sizes) + JpegSource(artwork, sizes),
                      ImgFor(artwork, loading, sizes, useThumbnail, priority)))
  }

  /** The WebP `<source>` is the explicit one, else one derived from a
      JPEG image path (a `.webp` path without `sizes`). */
  lemma WebPSourceRules(artwork: Json, useThumbnail: bool, sizes: string)
    requires !PictureThrows(artwork, useThumbnail)
    ensures var sources := WebPSource(artwork, useThumbnail, sizes) + JpegSource(artwork, sizes);
      && (TruthyOpt(SrcsetPart(artwork, "webp")) ==>
            |sources| > 0 && sources[0] == Source("image/webp", ToText(SrcsetPart(artwork, "webp").value), Some(sizes)))
      && (AutoWebP(artwork, useThumbnail) ==>
            |sources| > 0 && sources[0].mime == "image/webp" && Strings.EndsWith(sources[0].srcset, ".webp")
            && sources[0].sizes.None?)
  {
  }

  /** The picture's sources are its WebP ones followed by its JPEG ones: a
      WebP source is present exactly when one is given or derived, and a
      JPEG one exactly when one is given. */
  lemma SourcePresence(artwork: Json, useThumbnail: bool, sizes: string)
    ensures var webp := WebPSource(artwork, useThumbnail, sizes);
      && |webp| == (if TruthyOpt(SrcsetPart(artwork, "webp")) || AutoWebP(artwork, useThumbnail) then 1 else 0)
      && forall k :: 0 <= k < |webp| ==> webp[k].mime == "image/webp"
    ensures var jpeg := JpegSource(artwork, sizes);
      && |jpeg| == (if TruthyOpt(SrcsetPart(artwork, "jpeg")) then 1 else 0)
      && forall k :: 0 <= k < |jpeg| ==> jpeg[k].mime == "image/jpeg"
  {
  }

  /** The `<img>` rules: its source, the 400 by 500 size defaults, the
      requested loading, `fetchpriority` exactly for priority images, and a
      placeholder exactly when a low-quality image is given. */
  lemma ImgRules(artwork: Json, loading: string, sizes: string, useThumbnail: bool, priority: bool)
    ensures var img := ImgFor(artwork, loading, sizes, useThumbnail, priority);
      && img.src == OptText(ImageSource(artwork, useThumbnail))
      && (img.width == if TruthyOpt(Member(artwork, "width")) then ToText(Member(artwork, "width").value) else "400")
      && (img.height == if TruthyOpt(Member(artwork, "height")) then ToText(Member(artwork, "height").value) else "500")
      && img.highPriority == priority
      && img.loading == loading
      && (img.placeholder.Some? <==> TruthyOpt(Member(artwork, "lqip")))
  {
  }

  // ------------------------------------------------------------ items

  /** `window.innerWidth >= 768 ? 8 : 4`. */
  function AboveFoldCount(innerWidth: int): nat {
    if innerWidth >= 768 then 8 else 4
  }

  /** A rendered card: a grid item with its class, label, dataset, picture
      and sold marker, or a featured link with its label, picture, title
      and size. */
  datatype Item =
    | GalleryItem(className: string, ariaLabel: string, dataset: map<string, string>,
                  picture: Picture, sold: bool)
    | FeaturedItem(ariaLabel: string, picture: Picture, title: string, size: string)

  /** `artwork.images && artwork.images.length > 0` for the values JSON can
      hold (an object's `length` property is not followed). */
  predicate HasImages(v: Option<Json>) {
    v.Some? && ((v.value.JArr? && |v.value.items| > 0) || (v.value.JStr? && |v.value.s| > 0))
  }

  /** The `dataset` of a grid item. */
  function Dataset(artwork: Json, stringify: Json -> string): map<string, string>
    requires Member(artwork, "available").Some?
  {
    var base := map["title" := OptText(Member(artwork, "title")),
                    "size" := OptText(Member(artwork, "size")),
                    "materials" := OptText(Member(artwork, "materials")),
                    "description" := OptText(Member(artwork, "description")),
                    "img" := OptText(Member(artwork, "image")),
                    "available" := ToText(Member(artwork, "available").value),
                    "category" := TextOr(Member(artwork, "category"), "uncategorized")];
    var withPrice := if TruthyOpt(Member(artwork, "price"))
                     then base["price" := ToText(Member(artwork, "price").value)] else base;
    if HasImages(Member(artwork, "images"))
    then withPrice["images" := stringify(Member(artwork, "images").value)] else withPrice
  }

  /** `createGalleryItem(artwork, index)`. `None` is the case where it
      throws: a `null` artwork, a missing or `null` `available` (whose
      `toString` is called), or a picture that throws. */
  function GalleryItemFor(artwork: Json, index: nat, innerWidth: int, stringify: Json -> string): Option<Item>
  {
    var available := Member(artwork, "available");
    if artwork == JNull || available.None? || available.value == JNull then None
    else
      var above := index < AboveFoldCount(innerWidth);
      var picture := ResponsivePicture(artwork, if above then "eager" else "lazy",
                                       TextOr(Member(artwork, "sizes"), GallerySizes), true, above);
      if picture.None? then None
      else Some(GalleryItem("gallery-item " + TextOr(Member(artwork, "layout"), "") + " animate-on-scroll",
                            "View " + OptText(Member(artwork, "title")) + ", " + OptText(Member(artwork, "size")),
                            Dataset(artwork, stringify), picture.value, !Truthy(available.value)))
  }

  /** The text `createElement(tag, {}, children)` puts in its element when
      `children` is a JSON value: a string is one text node, an array adds
      one text node per string item, and everything else (a missing value,
      `null`, a number, a boolean, an object) adds nothing, since only
      strings and elements are appended. */
  function ChildText(children: Option<Json>): (t: string)
    ensures children.None? || !(children.value.JStr? || children.value.JArr?) ==> t == ""
    ensures children.Some? && children.value.JStr? ==> t == children.value.s
    ensures children.Some? && children.value.JArr? ==> t == StringItems(children.value.items)
  {
    if children.None? then ""
    else match children.value
      case JStr(s) => s
      case JArr(items) => StringItems(items)
      case _ => ""
  }

  /** The strings of a list, concatenated in order; other items are skipped. */
  function StringItems(items: seq<Json>): string
  {
    if items == [] then ""
    else
      var last := items[|items| - 1];
      StringItems(items[..|items| - 1]) + (if last.JStr? then last.s else "")
  }

  /** The child text of a list is its pieces' texts in order: appending items
      appends their strings, and a non-string item adds nothing. */
  lemma {:induction false} StringItemsAppend(a: seq<Json>, b: seq<Json>)
    ensures StringItems(a + b) == StringItems(a) + StringItems(b)
    decreases |b|
  {
    if b == [] {
      assert a + b == a;
    } else {
      assert (a + b)[..|a + b| - 1] == a + b[..|b| - 1];
      StringItemsAppend(a, b[..|b| - 1]);
    }
  }

  /** One item contributes its own string, or nothing when it is not one. */
  lemma StringItemsOne(v: Json)
    ensures StringItems([v]) == if v.JStr? then v.s else ""
  {
    assert [v][..0] == [];
  }

  /** A list without strings gives no text at all. */
  lemma {:induction false} StringItemsNone(items: seq<Json>)
    requires forall i :: 0 <= i < |items| ==> !items[i].JStr?
    ensures StringItems(items) == ""
  {
    if items != [] {
      StringItemsNone(items[..|items| - 1]);
    }
  }

  /** `createFeaturedItem(artwork, index)`; `None` where it throws. The label
      is a template literal (`String` of the title); the heading and the
      paragraph get the title's and the size's child text. */
  function FeaturedItemFor(artwork: Json, index: nat): Option<Item>
  {
    if artwork == JNull then None
    else
      var picture := ResponsivePicture(artwork, if index < LazyLoadThreshold then "eager" else "lazy",
                                       TextOr(Member(artwork, "sizes"), FeaturedSizes), false, false);
      if picture.None? then None
      else Some(FeaturedItem("View " + OptText(Member(artwork, "title")) + " in gallery", picture.value,
                             ChildText(Member(artwork, "title")), ChildText(Member(artwork, "size"))))
  }

  /** The dataset keys: `category` defaults to "uncategorized", `price` is
      present only when truthy and `images` only when non-empty. */
  lemma DatasetRules(artwork: Json, stringify: Json -> string)
    requires Member(artwork, "available").Some?
    ensures var d := Dataset(artwork, stringify);
      && d.Keys >= {"title", "size", "materials", "description", "img", "available", "category"}
      && d.Keys <= {"title", "size", "materials", "description", "img", "available", "category", "price", "images"}
      && d["category"] == (if TruthyOpt(Member(artwork, "category")) then ToText(Member(artwork, "category").value)
                           else "uncategorized")
      && ("price" in d <==> TruthyOpt(Member(artwork, "price")))
      && ("price" in d ==> d["price"] == ToText(Member(artwork, "price").value))
      && ("images" in d <==> HasImages(Member(artwork, "images")))
      && ("images" in d ==> d["images"] == stringify(Member(artwork, "images").value))
  {
  }

  /** A grid item throws exactly on a `null` artwork, a missing or `null`
      `available`, or a throwing picture; above the fold (by the viewport
      width) its image loads eagerly with high priority; a falsy
      `available` shows the sold marker. */
  lemma GalleryItemRules(artwork: Json, index: nat, innerWidth: int, stringify: Json -> string)
    ensures var r := GalleryItemFor(artwork, index, innerWidth, stringify);
      r.Some? <==> artwork != JNull && Member(artwork, "available").Some? && Member(artwork, "available").value != JNull
                   && !PictureThrows(artwork, true)
    ensures var r := GalleryItemFor(artwork, index, innerWidth, stringify);
      r.Some? ==>
        && r.value.GalleryItem?
        && (r.value.picture.img.loading == "eager" <==> index < AboveFoldCount(innerWidth))
        && (r.value.picture.img.highPriority <==> index < AboveFoldCount(innerWidth))
        && (r.value.sold <==> !Truthy(Member(artwork, "available").value))
        && r.value.dataset == Dataset(artwork, stringify)
  {
    var above := index < AboveFoldCount(innerWidth);
    ImgRules(artwork, if above then "eager" else "lazy", TextOr(Member(artwork, "sizes"), GallerySizes), true, above);
  }

  /** A featured item loads eagerly exactly for the first three; its label
      names the title, and its heading and paragraph show a string title and
      size as they are and a missing or non-text one as nothing. */
  lemma FeaturedItemRules(artwork: Json, index: nat)
    ensures var r := FeaturedItemFor(artwork, index);
      r.Some? <==> artwork != JNull && !PictureThrows(artwork, false)
    ensures var r := FeaturedItemFor(artwork, index);
      r.Some? ==>
        && r.value.FeaturedItem?
        && (r.value.picture.img.loading == "eager" <==> index < LazyLoadThreshold)
        && !r.value.picture.img.highPriority
        && r.value.ariaLabel == "View " + OptText(Member(artwork, "title")) + " in gallery"
        && r.value.title == ChildText(Member(artwork, "title"))
        && r.value.size == ChildText(Member(artwork, "size"))
        && (Member(artwork, "title").Some? && Member(artwork, "title").value.JStr?
            ==> r.value.title == Member(artwork, "title").value.s)
        && (Member(artwork, "size").None? || Member(artwork, "size").value.JNum? ==> r.value.size == "")
  {
    var eager := index < LazyLoadThreshold;
    ImgRules(artwork, if eager then "eager" else "lazy", TextOr(Member(artwork, "sizes"), FeaturedSizes), false, false);
  }

  /** The item `render` builds for an artwork at an index. */
  function ItemFor(featured: bool, artwork: Json, index: nat, innerWidth: int, stringify: Json -> string): Option<Item> {
    if featured then FeaturedItemFor(artwork, index) else GalleryItemFor(artwork, index, innerWidth, stringify)
  }

  /** The builder `render` uses for each artwork and its index, `None`
      where building throws. */
  type Builder = (Json, nat) -> Option<Item>

  /** `render`'s choice between `createFeaturedItem` and
      `createGalleryItem`. */
  function BuilderFor(featured: bool, innerWidth: int, stringify: Json -> string): Builder {
    (artwork: Json, index: nat) => ItemFor(featured, artwork, index, innerWidth, stringify)
  }

  /** Every artwork before `n` builds without throwing. */
  predicate AllRender(build: Builder, artworks: seq<Json>, n: nat)
    requires n <= |artworks|
  {
    n == 0 || (AllRender(build, artworks, n - 1) && build(artworks[n - 1], n - 1).Some?)
  }

  lemma {:induction false} AllRenderMeans(build: Builder, artworks: seq<Json>, n: nat)
    requires n <= |artworks|
    ensures AllRender(build, artworks, n) <==> forall i :: 0 <= i < n ==> build(artworks[i], i).Some?
  {
    if n > 0 {
      AllRenderMeans(build, artworks, n - 1);
    }
  }

  /** A child of the gallery container. */
  datatype Child = Skeleton | Card(item: Item) | ErrorBox(message: string)

  /** The cards `render` appends for the first `n` artworks. */
  function Cards(build: Builder, artworks: seq<Json>, n: nat): seq<Child>
    requires n <= |artworks| && AllRender(build, artworks, n)
  {
    if n == 0 then [] else Cards(build, artworks, n - 1) + [Card(build(artworks[n - 1], n - 1).value)]
  }

  /** The number of cards whose image loads eagerly. */
  function EagerCount(children: seq<Child>): nat {
    if children == [] then 0
    else EagerCount(children[..|children| - 1])
         + (var last := children[|children| - 1]; if last.Card? && last.item.picture.img.loading == "eager" then 1 else 0)
  }

  /** The builder loads an item eagerly exactly below an index limit. */
  ghost predicate EagerBelow(build: Builder, limit: nat) {
    forall artwork, index: nat :: build(artwork, index).Some? ==>
      (build(artwork, index).value.picture.img.loading == "eager" <==> index < limit)
  }

  /** Rendering `n` artworks with such a builder gives `n` cards, of which
      the first `limit` load eagerly. */
  lemma {:induction false} EagerCards(build: Builder, artworks: seq<Json>, n: nat, limit: nat)
    requires n <= |artworks| && AllRender(build, artworks, n) && EagerBelow(build, limit)
    ensures |Cards(build, artworks, n)| == n
    ensures EagerCount(Cards(build, artworks, n)) == if n < limit then n else limit
  {
    if n > 0 {
      EagerCards(build, artworks, n - 1, limit);
      var cs := Cards(build, artworks, n);
      assert cs[..|cs| - 1] == Cards(build, artworks, n - 1);
    }
  }

  /** The grid loads its first `AboveFoldCount` images eagerly, the
      featured strip its first three. */
  lemma BuilderLoading(featured: bool, innerWidth: int, stringify: Json -> string)
    ensures EagerBelow(BuilderFor(featured, innerWidth, stringify),
                       if featured then LazyLoadThreshold else AboveFoldCount(innerWidth))
  {
    var build := BuilderFor(featured, innerWidth, stringify);
    forall artwork, index: nat
      ensures build(artwork, index).Some? ==>
        (build(artwork, index).value.picture.img.loading == "eager"
         <==> index < if featured then LazyLoadThreshold else AboveFoldCount(innerWidth))
    {
      if featured {
        FeaturedItemRules(artwork, index);
      } else {
        GalleryItemRules(artwork, index, innerWidth, stringify);
      }
    }
  }

  /** A loaded gallery's eager images are exactly its first
      `AboveFoldCount` (grid) or three (featured) cards. */
  lemma RenderedEagerCount(featured: bool, innerWidth: int, stringify: Json -> string, artworks: seq<Json>)
    requires AllRender(BuilderFor(featured, innerWidth, stringify), artworks, |artworks|)
    ensures var limit := if featured then LazyLoadThreshold else AboveFoldCount(innerWidth);
      EagerCount(Cards(BuilderFor(featured, innerWidth, stringify), artworks, |artworks|))
      == if |artworks| < limit then |artworks| else limit
  {
    BuilderLoading(featured, innerWidth, stringify);
    EagerCards(BuilderFor(featured, innerWidth, stringify), artworks, |artworks|,
               if featured then LazyLoadThreshold else AboveFoldCount(innerWidth));
  }

  /** The children without skeletons, in order. */
  function WithoutSkeletons(children: seq<Child>): (r: seq<Child>)
    ensures Skeleton !in r
    ensures |r| <= |children|
  {
    if children == [] then []
    else WithoutSkeletons(children[..|children| - 1])
         + (if children[|children| - 1] == Skeleton then [] else [children[|children| - 1]])
  }

  /** Removing skeletons keeps every other child, in order: it is the
      identity on children that have none, and distributes over appends. */
  lemma {:induction false} WithoutSkeletonsAppend(a: seq<Child>, b: seq<Child>)
    ensures WithoutSkeletons(a + b) == WithoutSkeletons(a) + WithoutSkeletons(b)
    decreases |b|
  {
    if b == [] {
      assert a + b == a;
    } else {
      assert (a + b)[..|a + b| - 1] == a + b[..|b| - 1];
      WithoutSkeletonsAppend(a, b[..|b| - 1]);
    }
  }

  lemma {:induction false} WithoutSkeletonsKeeps(children: seq<Child>)
    requires Skeleton !in children
    ensures WithoutSkeletons(children) == children
  {
    if children != [] {
      var init, last := children[..|children| - 1], children[|children| - 1];
      assert children == init + [last];
      assert Skeleton !in init by {
        forall c | c in init ensures c in children {
          var k :| 0 <= k < |init| && init[k] == c;
          assert children[k] == c;
        }
      }
      WithoutSkeletonsKeeps(init);
      assert last in children;
    }
  }

  lemma {:induction false} OnlySkeletons(children: seq<Child>)
    requires forall i :: 0 <= i < |children| ==> children[i] == Skeleton
    ensures WithoutSkeletons(children) == []
  {
    if children != [] {
      OnlySkeletons(children[..|children| - 1]);
    }
  }

  /** The message `renderError` shows. */
  function ErrorMessage(featured: bool): string {
    if featured then "Unable to load artworks. Please try again."
    else "Unable to load gallery. Please try again."
  }

  /** `fetchArtworks` followed by `forEach`'s demand for an array: the
      list to render, or `None` when loading rejects or the value is not an
      array (a string, which `getFeatured` slices, has no `forEach`). */
  function FetchedArtworks(net: Api.Network, featured: bool): (r: Option<seq<Json>>)
    ensures featured ==> (r.Some? <==> Api.GetFeatured(net, None).Ok? && Api.GetFeatured(net, None).value.JArr?)
    ensures featured && r.Some? ==> r.value == Api.GetFeatured(net, None).value.items
    ensures !featured ==> (r.Some? <==> Api.FetchJson(net, Api.ArtworksUrl).Ok? && Api.FetchJson(net, Api.ArtworksUrl).value.JArr?)
    ensures !featured && r.Some? ==> r.value == Api.FetchJson(net, Api.ArtworksUrl).value.items
  {
    if featured then
      var f := Api.GetFeatured(net, None);
      if f.Ok? && f.value.JArr? then Some(f.value.items) else None
    else
      var all := Api.FetchJson(net, Api.ArtworksUrl);
      if all.Ok? && all.value.JArr? then Some(all.value.items) else None
  }

  /** Enter and Space on a focused item act as a click. */
  predicate ActivatesItem(key: string) {
    key == "Enter" || key == " "
  }

  class Gallery {
    /** `type === 'featured'`; the viewport width; an `onLoad` callback was
        passed. */
    const featured: bool
    const innerWidth: int
    const hasCallback: bool
    /** The container's children, its `gallery-loaded` class, and how many
        times `onLoad` has run. */
    var children: seq<Child>
    var loaded: bool
    var loadCallbacks: nat

    constructor (featured: bool, innerWidth: int, hasCallback: bool, children: seq<Child>,
                 net: Api.Network, stringify: Json -> string)
      ensures this.featured == featured && this.innerWidth == innerWidth && this.hasCallback == hasCallback
      ensures var artworks := FetchedArtworks(net, featured);
        if artworks.Some? && AllRender(BuilderFor(featured, innerWidth, stringify), artworks.value, |artworks.value|) then
          this.children == WithoutSkeletons(children) + Cards(BuilderFor(featured, innerWidth, stringify), artworks.value, |artworks.value|)
          && loaded && loadCallbacks == (if hasCallback then 1 else 0)
        else this.children == [ErrorBox(ErrorMessage(featured))] && !loaded && loadCallbacks == 0
    {
      this.featured := featured;
      this.innerWidth := innerWidth;
      this.hasCallback := hasCallback;
      this.children := children;
      loaded := false;
      loadCallbacks := 0;
      new;
      Init(net, stringify);
    }

    /** `init`: load, replace the skeletons by the cards, mark the gallery
        loaded and run the callback; on any failure show the error box. */
    method Init(net: Api.Network, stringify: Json -> string)
      modifies this`children, this`loaded, this`loadCallbacks
      ensures var artworks := FetchedArtworks(net, featured);
        if artworks.Some? && AllRender(BuilderFor(featured, innerWidth, stringify), artworks.value, |artworks.value|) then
          children == WithoutSkeletons(old(children)) + Cards(BuilderFor(featured, innerWidth, stringify), artworks.value, |artworks.value|)
          && loaded && loadCallbacks == old(loadCallbacks) + (if hasCallback then 1 else 0)
        else children == [ErrorBox(ErrorMessage(featured))] && loaded == old(loaded)
             && loadCallbacks == old(loadCallbacks)
    {
      var artworks := FetchedArtworks(net, featured);
      if artworks.None? {
        HideSkeletons();
        RenderError();
        return;
      }
      HideSkeletons();
      var ok := Render(artworks.value, BuilderFor(featured, innerWidth, stringify));
      if !ok {
        HideSkeletons();
        RenderError();
        return;
      }
      loaded := true;
      if hasCallback {
        loadCallbacks := loadCallbacks + 1;
      }
    }

    /** `hideSkeletons`: every skeleton is removed. */
    method HideSkeletons()
      modifies this`children
      ensures children == WithoutSkeletons(old(children))
    {
      var kept: seq<Child> := [];
      var i := 0;
      while i < |children|
        invariant 0 <= i <= |children|
        invariant kept == WithoutSkeletons(children[..i])
      {
        assert children[..i + 1][..i] == children[..i];
        if children[i] != Skeleton {
          kept := kept + [children[i]];
        }
        i := i + 1;
      }
      assert children[..i] == children;
      children := kept;
    }

    /** `render(artworks)` with the item builder for this gallery's type:
        the cards are built into a fragment appended at the end, so an
        artwork that throws leaves the container as it was. */
    method Render(artworks: seq<Json>, build: Builder) returns (ok: bool)
      modifies this`children
      ensures ok <==> AllRender(build, artworks, |artworks|)
      ensures ok ==> children == old(children) + Cards(build, artworks, |artworks|)
      ensures !ok ==> children == old(children)
    {
      var fragment: seq<Child> := [];
      var i := 0;
      while i < |artworks|
        invariant 0 <= i <= |artworks|
        invariant AllRender(build, artworks, i)
        invariant fragment == Cards(build, artworks, i)
      {
        var item := build(artworks[i], i);
        if item.None? {
          AllRenderMeans(build, artworks, |artworks|);
          return false;
        }
        fragment := fragment + [Card(item.value)];
        i := i + 1;
      }
      children := children + fragment;
      return true;
    }

    /** `renderError`: the container holds only the error box. */
    method RenderError()
      modifies this`children
      ensures children == [ErrorBox(ErrorMessage(featured))]
    {
      children := [ErrorBox(ErrorMessage(featured))];
    }

    /** `clear`. */
    method Clear()
      modifies this`children
      ensures children == []
    {
      children := [];
    }

    /** `showSkeletons`: `gallery-loaded` is removed and four skeletons are
        appended. */
    method ShowSkeletons()
      modifies this`children, this`loaded
      ensures !loaded
      ensures children == old(children) + [Skeleton, Skeleton, Skeleton, Skeleton]
    {
      loaded := false;
      var i := 0;
      while i < SkeletonCount
        invariant 0 <= i <= SkeletonCount && !loaded
        invariant children == old(children) + seq(i, _ => Skeleton)
      {
        children := children + [Skeleton];
        i := i + 1;
      }
    }

    /** `reload`: after clearing and showing skeletons, a successful load
        leaves exactly the cards, with no skeleton behind. */
    method Reload(net: Api.Network, stringify: Json -> string)
      modifies this`children, this`loaded, this`loadCallbacks
      ensures var artworks := FetchedArtworks(net, featured);
        if artworks.Some? && AllRender(BuilderFor(featured, innerWidth, stringify), artworks.value, |artworks.value|) then
          children == Cards(BuilderFor(featured, innerWidth, stringify), artworks.value, |artworks.value|)
          && loaded && loadCallbacks == old(loadCallbacks) + (if hasCallback then 1 else 0)
        else children == [ErrorBox(ErrorMessage(featured))] && !loaded && loadCallbacks == old(loadCallbacks)
    {
      Clear();
      ShowSkeletons();
      OnlySkeletons(children);
      Init(net, stringify);
    }
  }
}
