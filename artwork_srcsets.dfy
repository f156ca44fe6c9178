/** The `artworks.json` rewrite shared by scripts/update-srcsets.js and
    scripts/optimize-images.js: for each artwork, the main `image` gets a
    `srcset` (and `thumb`), and each entry of an `images` array gets its
    srcset stored at the same index of `imagesSrcset`. Artworks are JSON
    values as `JSON.parse` returns them; the scripts run as ES modules, so
    writing a property of a primitive throws a `TypeError`, as does passing
    a non-string path to `path.join`. The per-image lookup (each script's
    `addSrcsetToImage`) is a parameter here. */
module ArtworkSrcsets {
  import opened Wrappers
  import opened Json
  import Strings
  import FsTree

  const Widths: seq<nat> := [400, 800]

  datatype Srcset = Srcset(webp: string, jpeg: string)

  /** What `addSrcsetToImage` returns when it does not return `null`. */
  datatype SrcsetUpdate = SrcsetUpdate(thumb: Option<string>, srcset: Srcset)

  type Lookup = string -> Option<SrcsetUpdate>

  /** `${base}-${width}w.${ext}`. */
  function VariantFile(base: string, width: nat, ext: string): string {
    base + "-" + Strings.NatToString(width) + "w." + ext
  }

  /** `${relativeDir}/${file} ${width}w`. */
  function SrcsetEntry(relDir: string, file: string, width: nat): string {
    relDir + "/" + file + " " + Strings.NatToString(width) + "w"
  }

  /** The entries the width loop pushes for one format: one per width, in
      order, for each variant file that exists in `dir`. */
  function Entries(relDir: string, dir: string, base: string, ext: string, widths: seq<nat>,
                   onDisk: string -> bool): seq<string>
  {
    if widths == [] then []
    else
      var w := widths[|widths| - 1];
      Entries(relDir, dir, base, ext, widths[..|widths| - 1], onDisk)
      + (if onDisk(FsTree.Join(dir, VariantFile(base, w, ext))) then [SrcsetEntry(relDir, VariantFile(base, w, ext), w)] else [])
  }

  /** With the two configured widths: the 400w entry (if that file exists)
      and then the 800w entry (if that file exists). */
  lemma EntriesForWidths(relDir: string, dir: string, base: string, ext: string, onDisk: string -> bool)
    ensures Entries(relDir, dir, base, ext, Widths, onDisk)
         == (if onDisk(FsTree.Join(dir, VariantFile(base, 400, ext))) then [SrcsetEntry(relDir, VariantFile(base, 400, ext), 400)] else [])
          + (if onDisk(FsTree.Join(dir, VariantFile(base, 800, ext))) then [SrcsetEntry(relDir, VariantFile(base, 800, ext), 800)] else [])
    ensures Entries(relDir, dir, base, ext, Widths, onDisk) == [] <==>
              !onDisk(FsTree.Join(dir, VariantFile(base, 400, ext))) && !onDisk(FsTree.Join(dir, VariantFile(base, 800, ext)))
  {
    var first := Entries(relDir, dir, base, ext, [400], onDisk);
    assert [400][..0] == [] && [400][|[400]| - 1] == 400;
    assert Entries(relDir, dir, base, ext, [], onDisk) == [];
    assert first == (if onDisk(FsTree.Join(dir, VariantFile(base, 400, ext))) then [SrcsetEntry(relDir, VariantFile(base, 400, ext), 400)] else []);
    assert Widths[..1] == [400];
  }

  /** With both widths present, a format's srcset lists the 400w file and
      then the 800w file, each with its width. */
  lemma JoinedEntries(relDir: string, dir: string, base: string, ext: string, onDisk: string -> bool)
    requires onDisk(FsTree.Join(dir, VariantFile(base, 400, ext))) && onDisk(FsTree.Join(dir, VariantFile(base, 800, ext)))
    ensures Strings.Join(Entries(relDir, dir, base, ext, Widths, onDisk), ", ")
         == SrcsetEntry(relDir, VariantFile(base, 400, ext), 400) + ", " + SrcsetEntry(relDir, VariantFile(base, 800, ext), 800)
  {
    EntriesForWidths(relDir, dir, base, ext, onDisk);
    var e4 := SrcsetEntry(relDir, VariantFile(base, 400, ext), 400);
    var e8 := SrcsetEntry(relDir, VariantFile(base, 800, ext), 800);
    assert [e4, e8][1..] == [e8];
    assert Strings.Join([e4, e8], ", ") == e4 + ", " + e8;
  }

  lemma Digits()
    ensures Strings.NatToString(400) == "400" && Strings.NatToString(800) == "800"
  {
    assert Strings.NatToString(4) == "4" && Strings.NatToString(8) == "8";
    assert Strings.NatToString(40) == "40" && Strings.NatToString(80) == "80";
  }

  /** The 400w WebP variant of `base`, the file both scripts name as the
      thumb. */
  lemma ThumbFile(base: string)
    ensures VariantFile(base, 400, "webp") == base + "-400w.webp"
  {
    Digits();
    var tail := "-" + Strings.NatToString(400) + "w." + "webp";
    assert tail == "-400w.webp";
    assert VariantFile(base, 400, "webp") == base + tail;
  }

  /** The width loop both scripts run: the existing WebP and JPEG entries,
      and whether any variant was found. */
  method ExistingVariants(relDir: string, dir: string, base: string, onDisk: string -> bool)
    returns (webp: seq<string>, jpeg: seq<string>, found: bool)
    ensures webp == Entries(relDir, dir, base, "webp", Widths, onDisk)
    ensures jpeg == Entries(relDir, dir, base, "jpeg", Widths, onDisk)
    ensures found <==> webp != [] || jpeg != []
  {
    webp, jpeg, found := [], [], false;
    var k := 0;
    while k < |Widths|
      invariant 0 <= k <= |Widths|
      invariant webp == Entries(relDir, dir, base, "webp", Widths[..k], onDisk)
      invariant jpeg == Entries(relDir, dir, base, "jpeg", Widths[..k], onDisk)
      invariant found <==> webp != [] || jpeg != []
    {
      var width := Widths[k];
      assert Widths[..k + 1][..k] == Widths[..k];
      var webpFile := VariantFile(base, width, "webp");
      var jpegFile := VariantFile(base, width, "jpeg");
      if onDisk(FsTree.Join(dir, webpFile)) {
        webp := webp + [SrcsetEntry(relDir, webpFile, width)];
        found := true;
      }
      if onDisk(FsTree.Join(dir, jpegFile)) {
        jpeg := jpeg + [SrcsetEntry(relDir, jpegFile, width)];
        found := true;
      }
      k := k + 1;
    }
    assert Widths[..|Widths|] == Widths;
  }

  /** `{ webp: …, jpeg: … }` as stored in the file. */
  function SrcsetJson(s: Srcset): Json {
    JObj(map["webp" := JStr(s.webp), "jpeg" := JStr(s.jpeg)])
  }

  /** `obj[key] = v` on an object. */
  function Assign(obj: Json, key: string, v: Json): (r: Json)
    requires obj.JObj?
    ensures Member(r, key) == Some(v)
    ensures forall k :: k != key ==> Member(r, k) == Member(obj, k)
  {
    JObj(obj.fields[key := v])
  }

  /** `container[i] = v`: an array grows to hold index `i`, the skipped
      slots being holes that `JSON.stringify` writes as `null`; an object
      gets the key "i"; a primitive throws. */
  function AssignIndex(container: Json, i: nat, v: Json): (r: Option<Json>)
    ensures !IsObject(container) <==> r.None?
    ensures container.JObj? ==> r == Some(JObj(container.fields[Strings.NatToString(i) := v]))
    ensures container.JArr? ==>
              r.Some? && r.value.JArr?
              && |r.value.items| == (if i < |container.items| then |container.items| else i + 1)
              && r.value.items[i] == v
              && (forall k :: 0 <= k < |container.items| && k != i ==> r.value.items[k] == container.items[k])
              && (forall k :: |container.items| <= k < i ==> r.value.items[k] == JNull)
  {
    match container
    case JArr(items) =>
      if i < |items| then Some(JArr(items[i := v]))
      else Some(JArr(items + seq(i - |items|, _ => JNull) + [v]))
    case JObj(fields) => Some(JObj(fields[Strings.NatToString(i) := v]))
    case _ => None
  }

  /** The main-image step: `Ok((artwork, updated))`, or the error thrown
      by reading a property of `null` or by a non-string path. */
  function MainStep(a: Json, lookup: Lookup): (r: Result<(Json, bool), string>)
  {
    if a.JNull? then Err("Cannot read properties of null")
    else
      var image := Member(a, "image");
      if !TruthyOpt(image) then Ok((a, false))
      else if !image.value.JStr? then Err("The \"path\" argument must be of type string")
      else match lookup(image.value.s)
        case None => Ok((a, false))
        case Some(u) =>
          var withThumb := if u.thumb.Some? && u.thumb.value != "" then Assign(a, "thumb", JStr(u.thumb.value)) else a;
          Ok((Assign(withThumb, "srcset", SrcsetJson(u.srcset)), true))
  }

  /** A found main image sets `srcset` (and a non-empty `thumb`) and
      nothing else; otherwise the artwork is unchanged. */
  lemma MainStepRules(a: Json, lookup: Lookup)
    ensures MainStep(a, lookup).Err? <==>
              a.JNull? || (TruthyOpt(Member(a, "image")) && !Member(a, "image").value.JStr?)
    ensures MainStep(a, lookup).Ok? && !MainStep(a, lookup).value.1 ==> MainStep(a, lookup).value.0 == a
    ensures MainStep(a, lookup).Ok? && MainStep(a, lookup).value.1 ==>
              var u := lookup(Member(a, "image").value.s).value;
              var b := MainStep(a, lookup).value.0;
              Member(b, "srcset") == Some(SrcsetJson(u.srcset))
              && (u.thumb.Some? && u.thumb.value != "" ==> Member(b, "thumb") == Some(JStr(u.thumb.value)))
              && (!(u.thumb.Some? && u.thumb.value != "") ==> Member(b, "thumb") == Member(a, "thumb"))
              && (forall k :: k != "srcset" && k != "thumb" ==> Member(b, k) == Member(a, k))
  {
  }

  /** The state of the `images` loop: the artwork so far and how many of
      its images were given a srcset. */
  datatype ImagesState = ImagesState(artwork: Json, count: nat)

  /** One turn of the `images` loop, for index `i` holding `item`. */
  function ImageStep(st: ImagesState, i: nat, item: Json, lookup: Lookup): Result<ImagesState, string>
    requires st.artwork.JObj?
  {
    if !item.JStr? then Err("The \"path\" argument must be of type string")
    else match lookup(item.s)
      case None => Ok(st)
      case Some(u) =>
        var current := Member(st.artwork, "imagesSrcset");
        var container := if TruthyOpt(current) then current.value else JArr([]);
        match AssignIndex(container, i, SrcsetJson(u.srcset))
        case None => Err("Cannot create property on primitive")
        case Some(c) => Ok(ImagesState(Assign(st.artwork, "imagesSrcset", c), st.count + 1))
  }

  /** The loop after its first `n` turns. */
  function ImagesUpTo(a: Json, items: seq<Json>, n: nat, lookup: Lookup): (r: Result<ImagesState, string>)
    requires a.JObj? && n <= |items|
    ensures r.Ok? ==> r.value.artwork.JObj?
  {
    if n == 0 then Ok(ImagesState(a, 0))
    else
      var prev := ImagesUpTo(a, items, n - 1, lookup);
      if prev.Err? then prev else ImageStep(prev.value, n - 1, items[n - 1], lookup)
  }

  /** The images among the first `n` that have a srcset. */
  function Found(items: seq<Json>, n: nat, lookup: Lookup): (r: nat)
    requires n <= |items|
    ensures r <= n
  {
    if n == 0 then 0
    else Found(items, n - 1, lookup) + (if items[n - 1].JStr? && lookup(items[n - 1].s).Some? then 1 else 0)
  }

  /** `images[j]` is a path that `addSrcsetToImage` finds variants for. */
  predicate HasSrcset(item: Json, lookup: Lookup) {
    item.JStr? && lookup(item.s).Some?
  }

  /** No image among the first `n` has a srcset exactly when none was
      found. */
  lemma {:induction false} FoundNone(items: seq<Json>, n: nat, lookup: Lookup)
    requires n <= |items|
    ensures Found(items, n, lookup) == 0 <==> forall j :: 0 <= j < n ==> !HasSrcset(items[j], lookup)
  {
    if n > 0 {
      FoundNone(items, n - 1, lookup);
    }
  }

  /** The slots `imagesSrcset` starts from: an existing array's, or none
      when the property is falsy (the first image found creates `[]`). */
  predicate Prior(a: Json, base: seq<Json>) {
    (!TruthyOpt(Member(a, "imagesSrcset")) && base == []) || Member(a, "imagesSrcset") == Some(JArr(base))
  }

  /** What slot `j` of `imagesSrcset` holds after `n` turns from `base`: the
      srcset of `images[j]` when it has one, else the slot it had (a stale
      entry survives), else `null`. */
  function Slot(base: seq<Json>, items: seq<Json>, n: nat, lookup: Lookup, j: nat): Json
    requires n <= |items|
  {
    if j < n && HasSrcset(items[j], lookup) then SrcsetJson(lookup(items[j].s).value.srcset)
    else if j < |base| then base[j]
    else JNull
  }

  /** The state after `n` turns matches the images: the count is the
      number found, no property but `imagesSrcset` differs from `a`, and
      once something was found `imagesSrcset` is an array whose slots are
      `Slot`'s, at least as long as `base`, and longer only as far as the
      last image that has a srcset. */
  ghost predicate Corresponds(a: Json, base: seq<Json>, items: seq<Json>, n: nat, lookup: Lookup, st: ImagesState)
    requires n <= |items|
  {
    st.artwork.JObj?
    && st.count == Found(items, n, lookup)
    && (forall k :: k != "imagesSrcset" ==> Member(st.artwork, k) == Member(a, k))
    && (Found(items, n, lookup) == 0 ==> st.artwork == a)
    && (Found(items, n, lookup) > 0 ==>
          Member(st.artwork, "imagesSrcset").Some? && Member(st.artwork, "imagesSrcset").value.JArr?
          && var slots := Member(st.artwork, "imagesSrcset").value.items;
          |base| <= |slots|
          && (|slots| > |base| ==> |slots| <= n && HasSrcset(items[|slots| - 1], lookup))
          && (forall j :: |slots| <= j < n ==> !HasSrcset(items[j], lookup))
          && (forall j :: 0 <= j < |slots| ==> slots[j] == Slot(base, items, n, lookup, j)))
  }

  /** The slots before an image are the ones after it, except the image's
      own slot when it has a srcset. */
  lemma SlotStep(base: seq<Json>, items: seq<Json>, n: nat, lookup: Lookup)
    requires 0 < n <= |items|
    ensures forall j :: j != n - 1 ==> Slot(base, items, n, lookup, j) == Slot(base, items, n - 1, lookup, j)
    ensures !HasSrcset(items[n - 1], lookup) ==> Slot(base, items, n, lookup, n - 1) == Slot(base, items, n - 1, lookup, n - 1)
  {
  }

  /** Storing an image's srcset at its index of slots that match the first
      `n - 1` turns gives slots that match `n` turns. */
  lemma StoredSlots(base: seq<Json>, items: seq<Json>, n: nat, lookup: Lookup, cur: seq<Json>)
    requires 0 < n <= |items| && HasSrcset(items[n - 1], lookup)
    requires |base| <= |cur| && (|cur| > |base| ==> |cur| <= n - 1)
    requires forall j :: 0 <= j < |cur| ==> cur[j] == Slot(base, items, n - 1, lookup, j)
    requires forall j :: |cur| <= j < n - 1 ==> !HasSrcset(items[j], lookup)
    ensures AssignIndex(JArr(cur), n - 1, SrcsetJson(lookup(items[n - 1].s).value.srcset)).Some?
    ensures var slots := AssignIndex(JArr(cur), n - 1, SrcsetJson(lookup(items[n - 1].s).value.srcset)).value;
      slots.JArr? && |base| <= |slots.items|
      && (|slots.items| > |base| ==> |slots.items| <= n && HasSrcset(items[|slots.items| - 1], lookup))
      && (forall j :: |slots.items| <= j < n ==> !HasSrcset(items[j], lookup))
      && (forall j :: 0 <= j < |slots.items| ==> slots.items[j] == Slot(base, items, n, lookup, j))
  {
    SlotStep(base, items, n, lookup);
    var v := SrcsetJson(lookup(items[n - 1].s).value.srcset);
    var c := AssignIndex(JArr(cur), n - 1, v);
    assert c.Some? && c.value.items[n - 1] == v;
    assert |c.value.items| == if n - 1 < |cur| then |cur| else n;
  }

  /** An image with a srcset stores it at its index of the current array,
      padding any gap with `null`. */
  lemma SlotStored(a: Json, base: seq<Json>, items: seq<Json>, n: nat, lookup: Lookup, st: ImagesState)
    requires a.JObj? && 0 < n <= |items| && Prior(a, base)
    requires Corresponds(a, base, items, n - 1, lookup, st)
    requires HasSrcset(items[n - 1], lookup)
    ensures ImageStep(st, n - 1, items[n - 1], lookup).Ok?
    ensures Corresponds(a, base, items, n, lookup, ImageStep(st, n - 1, items[n - 1], lookup).value)
  {
    FoundNone(items, n - 1, lookup);
    var cur := if Found(items, n - 1, lookup) == 0 then base else Member(st.artwork, "imagesSrcset").value.items;
    assert Member(st.artwork, "imagesSrcset") == if Found(items, n - 1, lookup) == 0 then Member(a, "imagesSrcset")
                                                 else Some(JArr(cur));
    StoredSlots(base, items, n, lookup, cur);
    var c := AssignIndex(JArr(cur), n - 1, SrcsetJson(lookup(items[n - 1].s).value.srcset));
    var next := ImagesState(Assign(st.artwork, "imagesSrcset", c.value), st.count + 1);
    assert ImageStep(st, n - 1, items[n - 1], lookup) == Ok(next);
    assert Found(items, n, lookup) == Found(items, n - 1, lookup) + 1;
    assert Member(next.artwork, "imagesSrcset") == Some(c.value);
  }

  /** One turn keeps the correspondence, and throws exactly on a path that
      is not a string. */
  lemma StepCorresponds(a: Json, base: seq<Json>, items: seq<Json>, n: nat, lookup: Lookup, st: ImagesState)
    requires a.JObj? && 0 < n <= |items| && Prior(a, base)
    requires Corresponds(a, base, items, n - 1, lookup, st)
    ensures ImageStep(st, n - 1, items[n - 1], lookup).Err? <==> !items[n - 1].JStr?
    ensures ImageStep(st, n - 1, items[n - 1], lookup).Ok? ==>
              Corresponds(a, base, items, n, lookup, ImageStep(st, n - 1, items[n - 1], lookup).value)
  {
    if HasSrcset(items[n - 1], lookup) {
      SlotStored(a, base, items, n, lookup, st);
    } else {
      SlotStep(base, items, n, lookup);
    }
  }

  /** On an artwork without an `imagesSrcset` yet, the loop fails exactly
      when some image path is not a string; otherwise `imagesSrcset[j]`
      holds the srcset of `images[j]` for every image that has one, the
      other slots are `null`, the array ends at the last image that has
      one, the count is the number of such images, and no other property
      changes. */
  lemma {:induction false} ImagesCorrespond(a: Json, items: seq<Json>, n: nat, lookup: Lookup)
    requires a.JObj? && n <= |items|
    requires !TruthyOpt(Member(a, "imagesSrcset"))
    ensures ImagesUpTo(a, items, n, lookup).Err? <==> exists j :: 0 <= j < n && !items[j].JStr?
    ensures ImagesUpTo(a, items, n, lookup).Ok? ==>
      var st := ImagesUpTo(a, items, n, lookup).value;
      st.count == Found(items, n, lookup)
      && (forall k :: k != "imagesSrcset" ==> Member(st.artwork, k) == Member(a, k))
      && (Found(items, n, lookup) == 0 <==> forall j :: 0 <= j < n ==> !HasSrcset(items[j], lookup))
      && (Found(items, n, lookup) == 0 ==> st.artwork == a)
      && (Found(items, n, lookup) > 0 ==>
            Member(st.artwork, "imagesSrcset").Some? && Member(st.artwork, "imagesSrcset").value.JArr?
            && var slots := Member(st.artwork, "imagesSrcset").value.items;
            0 < |slots| <= n
            && HasSrcset(items[|slots| - 1], lookup)
            && (forall j :: |slots| <= j < n ==> !HasSrcset(items[j], lookup))
            && (forall j :: 0 <= j < |slots| ==>
                  slots[j] == if HasSrcset(items[j], lookup) then SrcsetJson(lookup(items[j].s).value.srcset) else JNull))
  {
    FoundNone(items, n, lookup);
    Holds(a, [], items, n, lookup);
    var r := ImagesUpTo(a, items, n, lookup);
    if r.Ok? && Found(items, n, lookup) > 0 {
      FirstRunSlots(items, n, lookup, Member(r.value.artwork, "imagesSrcset").value.items);
    }
  }

  /** Slots built from none reach the last image with a srcset, and hold
      `null` wherever an image has none. */
  lemma FirstRunSlots(items: seq<Json>, n: nat, lookup: Lookup, slots: seq<Json>)
    requires n <= |items| && Found(items, n, lookup) > 0
    requires |slots| > 0 ==> |slots| <= n && HasSrcset(items[|slots| - 1], lookup)
    requires forall j :: |slots| <= j < n ==> !HasSrcset(items[j], lookup)
    requires forall j :: 0 <= j < |slots| ==> slots[j] == Slot([], items, n, lookup, j)
    ensures 0 < |slots| <= n
    ensures forall j :: 0 <= j < |slots| ==>
              slots[j] == if HasSrcset(items[j], lookup) then SrcsetJson(lookup(items[j].s).value.srcset) else JNull
  {
    FoundNone(items, n, lookup);
    var k :| 0 <= k < n && HasSrcset(items[k], lookup);
    assert k < |slots|;
  }

  /** On a second run, over an artwork whose `imagesSrcset` is already an
      array, the loop still fails exactly on a non-string path; otherwise
      each image with a srcset overwrites its slot, every other slot keeps
      what it held (a stale srcset survives), the array grows, padded with
      `null`, only as far as the last image with a srcset, the count is the
      number of such images, and no other property changes. */
  lemma {:induction false} ImagesRerun(a: Json, base: seq<Json>, items: seq<Json>, n: nat, lookup: Lookup)
    requires a.JObj? && n <= |items|
    requires Member(a, "imagesSrcset") == Some(JArr(base))
    ensures ImagesUpTo(a, items, n, lookup).Err? <==> exists j :: 0 <= j < n && !items[j].JStr?
    ensures ImagesUpTo(a, items, n, lookup).Ok? ==>
      var st := ImagesUpTo(a, items, n, lookup).value;
      st.count == Found(items, n, lookup)
      && (forall k :: k != "imagesSrcset" ==> Member(st.artwork, k) == Member(a, k))
      && (Found(items, n, lookup) == 0 ==> st.artwork == a)
      && (Found(items, n, lookup) > 0 ==>
            Member(st.artwork, "imagesSrcset").Some? && Member(st.artwork, "imagesSrcset").value.JArr?
            && var slots := Member(st.artwork, "imagesSrcset").value.items;
            |base| <= |slots|
            && (|slots| > |base| ==> |slots| <= n && HasSrcset(items[|slots| - 1], lookup))
            && (forall j :: 0 <= j < |slots| ==>
                  slots[j] == if j < n && HasSrcset(items[j], lookup) then SrcsetJson(lookup(items[j].s).value.srcset)
                              else if j < |base| then base[j] else JNull))
  {
    Holds(a, base, items, n, lookup);
  }

  /** The loop keeps `Corresponds`, by induction on `n`. */
  lemma {:induction false} Holds(a: Json, base: seq<Json>, items: seq<Json>, n: nat, lookup: Lookup)
    requires a.JObj? && n <= |items| && Prior(a, base)
    ensures ImagesUpTo(a, items, n, lookup).Err? <==> exists j :: 0 <= j < n && !items[j].JStr?
    ensures ImagesUpTo(a, items, n, lookup).Ok? ==>
              Corresponds(a, base, items, n, lookup, ImagesUpTo(a, items, n, lookup).value)
  {
    if n > 0 {
      Holds(a, base, items, n - 1, lookup);
      var prev := ImagesUpTo(a, items, n - 1, lookup);
      if prev.Ok? {
        var next := ImageStep(prev.value, n - 1, items[n - 1], lookup);
        assert ImagesUpTo(a, items, n, lookup) == next;
        StepCorresponds(a, base, items, n, lookup, prev.value);
        if next.Err? {
          assert !items[n - 1].JStr?;
        } else {
          assert forall j :: 0 <= j < n - 1 ==> items[j].JStr?;
        }
      } else {
        assert ImagesUpTo(a, items, n, lookup) == prev;
        var j :| 0 <= j < n - 1 && !items[j].JStr?;
      }
    }
  }

  /** Every artwork's outcome: the new value, whether its main image was
      updated, how many of its `images` were, and whether it had an
      `images` array. */
  datatype ArtworkOutcome = ArtworkOutcome(artwork: Json, mainUpdated: bool, imagesUpdated: nat, hasImages: bool)

  /** The rewrite of one artwork: the main image first, then the `images`
      array when it is an array. */
  function RewriteArtwork(a: Json, lookup: Lookup): Result<ArtworkOutcome, string> {
    var main := MainStep(a, lookup);
    if main.Err? then Err(main.error)
    else
      var b := main.value.0;
      var images := Member(b, "images");
      if images.Some? && images.value.JArr? then
        var loop := ImagesUpTo(b, images.value.items, |images.value.items|, lookup);
        if loop.Err? then Err(loop.error)
        else Ok(ArtworkOutcome(loop.value.artwork, main.value.1, loop.value.count, true))
      else Ok(ArtworkOutcome(b, main.value.1, 0, false))
  }

  /** After the `images` loop, scripts/update-srcsets.js (lines 127-128)
      logs `imagesSrcset.filter(x => x).length` for an artwork with an
      `images` array that was updated and has a truthy `imagesSrcset`. That
      value is an array unless the file already held something else there;
      on anything else `filter` is not a function and the call throws. */
  predicate GalleryLogThrows(o: ArtworkOutcome) {
    o.hasImages && (o.mainUpdated || o.imagesUpdated > 0)
    && TruthyOpt(Member(o.artwork, "imagesSrcset")) && !Member(o.artwork, "imagesSrcset").value.JArr?
  }

  const FilterNotAFunction := "artwork.imagesSrcset.filter is not a function"

  /** One artwork of the outer loop; `logs` says whether the script logs
      the gallery count after the `images` loop, as
      scripts/update-srcsets.js does and scripts/optimize-images.js does
      not. */
  function UpdateArtwork(a: Json, lookup: Lookup, logs: bool): Result<ArtworkOutcome, string> {
    var r := RewriteArtwork(a, lookup);
    if logs && r.Ok? && GalleryLogThrows(r.value) then Err(FilterNotAFunction) else r
  }

  /** The logging script fails on one artwork exactly where the other one
      does, or where the other one succeeds on an artwork with an `images`
      array and an outcome on which the gallery log throws; in every other
      case both give the same outcome. */
  lemma LoggedArtwork(a: Json, lookup: Lookup)
    ensures var plain := UpdateArtwork(a, lookup, false);
      var logged := UpdateArtwork(a, lookup, true);
      && (plain.Err? ==> logged == plain)
      && (plain.Ok? ==> (plain.value.hasImages <==> Member(a, "images").Some? && Member(a, "images").value.JArr?))
      && (plain.Ok? ==>
            (logged.Err? <==> GalleryLogThrows(plain.value))
            && (logged.Err? ==> logged.error == FilterNotAFunction)
            && (logged.Ok? ==> logged == plain))
  {
    MainStepRules(a, lookup);
  }

  /** An artwork whose main image is found, with an empty `images` array and
      a truthy non-array `imagesSrcset`, makes the gallery log throw. */
  lemma ForeignSrcsetArtwork(a: Json, lookup: Lookup)
    requires a.JObj? && Member(a, "image").Some? && Member(a, "image").value.JStr?
    requires Member(a, "image").value.s != "" && lookup(Member(a, "image").value.s).Some?
    requires Member(a, "images") == Some(JArr([]))
    requires TruthyOpt(Member(a, "imagesSrcset")) && !Member(a, "imagesSrcset").value.JArr?
    ensures RewriteArtwork(a, lookup).Ok? && GalleryLogThrows(RewriteArtwork(a, lookup).value)
    ensures UpdateArtwork(a, lookup, true) == Err(FilterNotAFunction)
  {
    MainStepRules(a, lookup);
    var b := MainStep(a, lookup).value.0;
    assert Member(b, "images") == Some(JArr([]));
    assert ImagesUpTo(b, [], 0, lookup) == Ok(ImagesState(b, 0));
    assert RewriteArtwork(a, lookup) == Ok(ArtworkOutcome(b, true, 0, true));
  }

  /** The `images` loop of one artwork. */
  method UpdateImages(a: Json, items: seq<Json>, lookup: Lookup) returns (r: Result<ImagesState, string>)
    requires a.JObj?
    ensures r == ImagesUpTo(a, items, |items|, lookup)
  {
    var st := ImagesState(a, 0);
    var i := 0;
    while i < |items|
      invariant 0 <= i <= |items|
      invariant ImagesUpTo(a, items, i, lookup) == Ok(st)
    {
      var next := ImageStep(st, i, items[i], lookup);
      if next.Err? {
        FailureStays(a, items, i + 1, |items|, lookup);
        return next;
      }
      st := next.value;
      i := i + 1;
    }
    r := Ok(st);
  }

  /** Once a turn throws, the loop's result is that error. */
  lemma {:induction false} FailureStays(a: Json, items: seq<Json>, m: nat, n: nat, lookup: Lookup)
    requires a.JObj? && 0 < m <= n <= |items|
    requires ImagesUpTo(a, items, m, lookup).Err?
    decreases n - m
    ensures ImagesUpTo(a, items, n, lookup) == ImagesUpTo(a, items, m, lookup)
  {
    if m < n {
      FailureStays(a, items, m, n - 1, lookup);
    }
  }

  /** One artwork of the outer loop. */
  method ProcessArtwork(a: Json, lookup: Lookup, logs: bool) returns (r: Result<ArtworkOutcome, string>)
    ensures r == UpdateArtwork(a, lookup, logs)
  {
    var main := MainStep(a, lookup);
    if main.Err? {
      return Err(main.error);
    }
    var b := main.value.0;
    var images := Member(b, "images");
    if images.Some? && images.value.JArr? {
      var loop := UpdateImages(b, images.value.items, lookup);
      if loop.Err? {
        return Err(loop.error);
      }
      r := Ok(ArtworkOutcome(loop.value.artwork, main.value.1, loop.value.count, true));
    } else {
      r := Ok(ArtworkOutcome(b, main.value.1, 0, false));
    }
    if logs && GalleryLogThrows(r.value) {
      r := Err(FilterNotAFunction);
    }
  }

  /** The outer loop's tallies: the artworks as rewritten, how many had
      anything updated, how many had their main image updated, and how many
      entries of their `images` arrays were. */
  datatype Report = Report(artworks: seq<Json>, updated: nat, mainUpdated: nat, imagesUpdated: nat)

  function Record(rep: Report, o: ArtworkOutcome): Report {
    Report(rep.artworks + [o.artwork],
           rep.updated + (if o.mainUpdated || o.imagesUpdated > 0 then 1 else 0),
           rep.mainUpdated + (if o.mainUpdated then 1 else 0),
           rep.imagesUpdated + o.imagesUpdated)
  }

  /** `for (const artwork of artworks)`: the artworks in order, stopping at
      the first one that throws. */
  function UpdateAll(artworks: seq<Json>, lookup: Lookup, logs: bool): Result<Report, string> {
    if artworks == [] then Ok(Report([], 0, 0, 0))
    else
      var prev := UpdateAll(artworks[..|artworks| - 1], lookup, logs);
      if prev.Err? then prev
      else match UpdateArtwork(artworks[|artworks| - 1], lookup, logs)
        case Err(e) => Err(e)
        case Ok(o) => Ok(Record(prev.value, o))
  }

  /** The loop fails exactly when one artwork does. */
  lemma {:induction false} UpdateAllFails(artworks: seq<Json>, lookup: Lookup, logs: bool)
    ensures UpdateAll(artworks, lookup, logs).Err? <==>
              exists k :: 0 <= k < |artworks| && UpdateArtwork(artworks[k], lookup, logs).Err?
  {
    if artworks != [] {
      var init := artworks[..|artworks| - 1];
      UpdateAllFails(init, lookup, logs);
      assert forall k :: 0 <= k < |init| ==> init[k] == artworks[k];
    }
  }

  /** When the loop succeeds, artwork `k` is rewritten on its own, and an
      artwork counts as updated at most once, when its main image or one of
      its images was. */
  lemma {:induction false} UpdateAllReport(artworks: seq<Json>, lookup: Lookup, logs: bool)
    ensures UpdateAll(artworks, lookup, logs).Ok? ==>
      var rep := UpdateAll(artworks, lookup, logs).value;
      |rep.artworks| == |artworks|
      && (forall k :: 0 <= k < |artworks| ==>
            UpdateArtwork(artworks[k], lookup, logs).Ok? && rep.artworks[k] == UpdateArtwork(artworks[k], lookup, logs).value.artwork)
      && rep.mainUpdated <= rep.updated <= |artworks|
      && rep.updated <= rep.mainUpdated + rep.imagesUpdated
  {
    if artworks != [] {
      var init := artworks[..|artworks| - 1];
      UpdateAllReport(init, lookup, logs);
      assert forall k :: 0 <= k < |init| ==> init[k] == artworks[k];
    }
  }

  /** The loop fails exactly when one artwork does; otherwise artwork `k`
      is rewritten on its own, and an artwork counts as updated at most
      once, when its main image or one of its images was. */
  lemma UpdateAllMeans(artworks: seq<Json>, lookup: Lookup, logs: bool)
    ensures UpdateAll(artworks, lookup, logs).Err? <==>
              exists k :: 0 <= k < |artworks| && UpdateArtwork(artworks[k], lookup, logs).Err?
    ensures UpdateAll(artworks, lookup, logs).Ok? ==>
      var rep := UpdateAll(artworks, lookup, logs).value;
      |rep.artworks| == |artworks|
      && (forall k :: 0 <= k < |artworks| ==>
            UpdateArtwork(artworks[k], lookup, logs).Ok? && rep.artworks[k] == UpdateArtwork(artworks[k], lookup, logs).value.artwork)
      && rep.mainUpdated <= rep.updated <= |artworks|
      && rep.updated <= rep.mainUpdated + rep.imagesUpdated
  {
    UpdateAllFails(artworks, lookup, logs);
    UpdateAllReport(artworks, lookup, logs);
  }

  /** Once an artwork throws, the rest of the loop does not run. */
  lemma {:induction false} UpdateFailureStays(artworks: seq<Json>, m: nat, lookup: Lookup, logs: bool)
    requires 0 < m <= |artworks|
    requires UpdateAll(artworks[..m], lookup, logs).Err?
    decreases |artworks| - m
    ensures UpdateAll(artworks, lookup, logs) == UpdateAll(artworks[..m], lookup, logs)
  {
    if m < |artworks| {
      assert artworks[..|artworks| - 1][..m] == artworks[..m];
      UpdateFailureStays(artworks[..|artworks| - 1], m, lookup, logs);
    } else {
      assert artworks[..m] == artworks;
    }
  }

  /** The outer loop. */
  method UpdateArtworks(artworks: seq<Json>, lookup: Lookup, logs: bool) returns (r: Result<Report, string>)
    ensures r == UpdateAll(artworks, lookup, logs)
  {
    var rep := Report([], 0, 0, 0);
    var i := 0;
    while i < |artworks|
      invariant 0 <= i <= |artworks|
      invariant UpdateAll(artworks[..i], lookup, logs) == Ok(rep)
    {
      var o := ProcessArtwork(artworks[i], lookup, logs);
      assert artworks[..i + 1][..i] == artworks[..i];
      if o.Err? {
        UpdateFailureStays(artworks, i + 1, lookup, logs);
        return Err(o.error);
      }
      rep := Record(rep, o.value);
      i := i + 1;
    }
    assert artworks[..i] == artworks;
    r := Ok(rep);
  }

  /** What `for…of` iterates over: the elements of an array, the
      characters of a string; anything else throws. */
  function Iterated(v: Json): Option<seq<Json>> {
    match v
    case JArr(items) => Some(items)
    case JStr(s) => Some(seq(|s|, i requires 0 <= i < |s| => JStr([s[i]])))
    case _ => None
  }

  /** A one-character string has no `image` or `images`: nothing changes. */
  lemma StringArtworksUnchanged(s: string, lookup: Lookup, logs: bool)
    ensures Iterated(JStr(s)).Some?
    ensures UpdateAll(Iterated(JStr(s)).value, lookup, logs).Ok?
    ensures UpdateAll(Iterated(JStr(s)).value, lookup, logs).value == Report(Iterated(JStr(s)).value, 0, 0, 0)
  {
    var chars := Iterated(JStr(s)).value;
    CharsUnchanged(chars, lookup, logs);
  }

  lemma {:induction false} CharsUnchanged(chars: seq<Json>, lookup: Lookup, logs: bool)
    requires forall k :: 0 <= k < |chars| ==> chars[k].JStr?
    ensures UpdateAll(chars, lookup, logs) == Ok(Report(chars, 0, 0, 0))
  {
    if chars != [] {
      CharsUnchanged(chars[..|chars| - 1], lookup, logs);
      assert chars[..|chars| - 1] + [chars[|chars| - 1]] == chars;
    }
  }

  /** The value written back: the rewritten array, or the string as it was. */
  function Written(v: Json, rep: Report): Json {
    if v.JArr? then JArr(rep.artworks) else v
  }

  /** Reading, rewriting and writing back `artworks.json`: `None` for
      content that is not JSON, `Err` when the loop throws. */
  function UpdateFile(content: Option<Json>, lookup: Lookup, logs: bool): Result<(Json, Report), string> {
    match content
    case None => Err("Unexpected token in JSON")
    case Some(v) =>
      match Iterated(v)
      case None => Err("artworks is not iterable")
      case Some(artworks) =>
        match UpdateAll(artworks, lookup, logs)
        case Err(e) => Err(e)
        case Ok(rep) => Ok((Written(v, rep), rep))
  }

  /** Only an array or a string can be rewritten; an array keeps its length
      and a string is written back as it was. */
  lemma UpdateFileShape(content: Option<Json>, lookup: Lookup, logs: bool)
    ensures content.None? ==> UpdateFile(content, lookup, logs).Err?
    ensures content.Some? && !content.value.JArr? && !content.value.JStr? ==> UpdateFile(content, lookup, logs).Err?
    ensures content.Some? && content.value.JStr? ==> UpdateFile(content, lookup, logs) == Ok((content.value, Report(Iterated(content.value).value, 0, 0, 0)))
    ensures content.Some? && content.value.JArr? && UpdateFile(content, lookup, logs).Ok? ==>
              UpdateFile(content, lookup, logs).value.0.JArr?
              && |UpdateFile(content, lookup, logs).value.0.items| == |content.value.items|
  {
    if content.Some? {
      if content.value.JStr? {
        StringArtworksUnchanged(content.value.s, lookup, logs);
      } else if content.value.JArr? {
        UpdateAllMeans(content.value.items, lookup, logs);
      }
    }
  }
}
