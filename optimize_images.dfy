/** scripts/optimize-images.js: finds the JPEGs under docs/img, skips the
    ones its patterns exclude and the ones whose WebP variants are already
    listed, writes 400w and 800w WebP and JPEG variants of the rest in
    batches of five, collects statistics, and then records the variants in
    `artworks.json`. The disk is a parameter: `readdir` of a directory as
    an optional listing, and a file counts as existing (`fs.access`) when
    its directory's listing names it. `sharp` is a parameter too: the image
    metadata, the encoder (which may reject with a message) and the sizes
    of the files it writes. */
module OptimizeImages {
  import opened Wrappers
  import opened Json
  import Strings
  import ImageNames
  import FsTree
  import AS = ArtworkSrcsets

  const ImgDir: string := "docs/img"
  const ArtworksJsonPath: string := "docs/js/artworks.json"
  const WebpQuality: nat := 80
  const JpegQuality: nat := 85
  const BatchSize: nat := 5

  /** The characters `.` does not match in a regular expression without
      the `s` flag. */
  predicate IsLineTerminator(c: char) {
    c == '\n' || c == '\r' || c == '\U{2028}' || c == '\U{2029}'
  }

  /** `/galleries.*\.jpeg$/.test(s)`. */
  predicate MatchesGalleries(s: string) {
    Strings.EndsWith(s, ".jpeg")
    && exists i | 0 <= i && i + 9 <= |s| - 5 ::
         Strings.OccursAt(s, "galleries", i) && forall k :: i + 9 <= k < |s| - 5 ==> !IsLineTerminator(s[k])
  }

  /** `shouldSkip`: any of the four patterns, which are case-sensitive
      except that the variant tag has no letters to fold. */
  predicate ShouldSkip(p: string) {
    ImageNames.HasVariantTag(p)
    || Strings.Contains(p, "logo")
    || Strings.EndsWith(p, "cover.jpeg")
    || MatchesGalleries(p)
  }

  lemma ShouldSkipExamples()
    ensures ShouldSkip("docs/img/site-logo.jpeg")
    ensures ShouldSkip("docs/img/book-cover.jpeg")
    ensures ShouldSkip("docs/img/galleries/sea.jpeg")
    ensures ShouldSkip("docs/img/sea-800w.jpeg")
  {
    assert Strings.OccursAt("docs/img/site-logo.jpeg", "logo", 14);
    assert Strings.EndsWith("docs/img/book-cover.jpeg", "cover.jpeg");
    assert Strings.OccursAt("docs/img/galleries/sea.jpeg", "galleries", 9);
    assert ImageNames.VariantTagAt("docs/img/sea-800w.jpeg", 12, 16);
  }

  /** The galleries pattern is case-sensitive and does not cross a line
      break. */
  lemma GalleriesPatternExamples()
    ensures !MatchesGalleries("galleries/sea.JPEG")
    ensures !MatchesGalleries("galleries\n.jpeg")
  {
    var t := "galleries\n.jpeg";
    forall i | 0 <= i && i + 9 <= |t| - 5
      ensures !(Strings.OccursAt(t, "galleries", i) && forall k :: i + 9 <= k < |t| - 5 ==> !IsLineTerminator(t[k]))
    {
      if i == 0 {
        assert IsLineTerminator(t[9]);
      } else {
        assert t[i..i + 9][0] != 'g';
      }
    }
  }

  /** `getBaseName`: `/\.(jpe?g)$/i`. */
  function BaseName(filename: string): string {
    ImageNames.StripExtension(filename, [".jpg", ".jpeg"])
  }

  /** `readdir(dir)`: the names in `dir`, or `None` when it throws. */
  type Listing = string -> Option<seq<string>>

  /** `fs.access(p)` succeeds: the directory of `p` lists its name. */
  predicate FileExists(list: Listing, p: string) {
    var files := list(FsTree.DirName(p));
    files.Some? && FsTree.FileName(p) in files.value
  }

  /** `hasVariants`: the directory lists both WebP variants; a directory
      that cannot be read has none. */
  predicate HasVariants(imagePath: string, list: Listing) {
    var base := BaseName(FsTree.FileName(imagePath));
    match list(FsTree.DirName(imagePath))
    case None => false
    case Some(files) =>
      AS.VariantFile(base, 400, "webp") in files && AS.VariantFile(base, 800, "webp") in files
  }

  /** `addSrcsetToImage`: nothing unless both WebP variants are listed;
      then the entries of each format that exist, and the 400w WebP as the
      thumb. */
  function SrcsetFor(imagePath: string, list: Listing): Option<AS.SrcsetUpdate> {
    var full := "docs/" + imagePath;
    if !HasVariants(full, list) then None
    else
      var dir := FsTree.DirName(full);
      var base := BaseName(FsTree.FileName(full));
      var relDir := FsTree.DirName(imagePath);
      var onDisk := (p: string) => FileExists(list, p);
      var webp := AS.Entries(relDir, dir, base, "webp", AS.Widths, onDisk);
      var jpeg := AS.Entries(relDir, dir, base, "jpeg", AS.Widths, onDisk);
      Some(AS.SrcsetUpdate(Some(relDir + "/" + AS.VariantFile(base, 400, "webp")),
                           AS.Srcset(Strings.Join(webp, ", "), Strings.Join(jpeg, ", "))))
  }

  function LookupOf(list: Listing): AS.Lookup {
    p => SrcsetFor(p, list)
  }

  /** The last path component has no separator. */
  lemma FileNameSlashFree(p: string)
    ensures '/' !in FsTree.FileName(p)
  {
  }

  /** A stripped base name with the variant suffix added has no separator. */
  lemma VariantFileSlashFree(name: string, w: nat, ext: string)
    requires '/' !in name && '/' !in ext
    ensures '/' !in AS.VariantFile(BaseName(name), w, ext)
  {
    var base := BaseName(name);
    assert Strings.StartsWith(name, base);
    assert forall k :: 0 <= k < |base| ==> base[k] == name[k];
    var digits := Strings.NatToString(w);
    assert '/' !in digits;
  }

  /** A variant listed in the image's directory exists at the path joined
      from that directory. */
  lemma ListedVariantExists(full: string, list: Listing, w: nat, ext: string)
    requires '/' !in ext
    requires list(FsTree.DirName(full)).Some?
    requires AS.VariantFile(BaseName(FsTree.FileName(full)), w, ext) in list(FsTree.DirName(full)).value
    ensures FileExists(list, FsTree.Join(FsTree.DirName(full), AS.VariantFile(BaseName(FsTree.FileName(full)), w, ext)))
  {
    FileNameSlashFree(full);
    VariantFileSlashFree(FsTree.FileName(full), w, ext);
    FsTree.JoinSplits(FsTree.DirName(full), AS.VariantFile(BaseName(FsTree.FileName(full)), w, ext));
  }

  /** A srcset is produced exactly when both WebP variants are listed; its
      thumb is then the 400w WebP, which exists, and its WebP srcset lists
      the 400w and then the 800w file. */
  lemma SrcsetForMeans(imagePath: string, list: Listing)
    ensures SrcsetFor(imagePath, list).Some? <==> HasVariants("docs/" + imagePath, list)
    ensures SrcsetFor(imagePath, list).Some? ==>
              var full := "docs/" + imagePath;
              var base := BaseName(FsTree.FileName(full));
              var relDir := FsTree.DirName(imagePath);
              var u := SrcsetFor(imagePath, list).value;
              u.thumb == Some(relDir + "/" + AS.VariantFile(base, 400, "webp"))
              && FileExists(list, FsTree.Join(FsTree.DirName(full), AS.VariantFile(base, 400, "webp")))
              && u.srcset.webp == AS.SrcsetEntry(relDir, AS.VariantFile(base, 400, "webp"), 400) + ", "
                                  + AS.SrcsetEntry(relDir, AS.VariantFile(base, 800, "webp"), 800)
  {
    var full := "docs/" + imagePath;
    if HasVariants(full, list) {
      var dir := FsTree.DirName(full);
      var base := BaseName(FsTree.FileName(full));
      var relDir := FsTree.DirName(imagePath);
      ListedVariantExists(full, list, 400, "webp");
      ListedVariantExists(full, list, 800, "webp");
      AS.JoinedEntries(relDir, dir, base, "webp", (p: string) => FileExists(list, p));
    }
  }

  /** `addSrcsetToImage`, the width loop. */
  method AddSrcsetToImage(imagePath: string, list: Listing) returns (r: Option<AS.SrcsetUpdate>)
    ensures r == SrcsetFor(imagePath, list)
  {
    var fullPath := "docs/" + imagePath;
    var dir := FsTree.DirName(fullPath);
    var baseName := BaseName(FsTree.FileName(fullPath));
    if !HasVariants(fullPath, list) {
      return None;
    }
    var relativeDir := FsTree.DirName(imagePath);
    var webp, jpeg, _ := AS.ExistingVariants(relativeDir, dir, baseName, (p: string) => FileExists(list, p));
    r := Some(AS.SrcsetUpdate(Some(relativeDir + "/" + AS.VariantFile(baseName, 400, "webp")),
                              AS.Srcset(Strings.Join(webp, ", "), Strings.Join(jpeg, ", "))));
  }

  /** `metadata.width`, missing when `sharp` cannot tell. */
  datatype Metadata = Metadata(width: Option<nat>)

  /** One file `generateVariants` writes, and the same with its size. */
  datatype Output = Output(width: nat, format: string, path: string)
  datatype Variant = Variant(width: nat, format: string, path: string, size: nat)

  /** A width is generated unless the original is known to be narrower. */
  predicate Kept(md: Metadata, w: nat) {
    !(md.width.Some? && md.width.value > 0 && md.width.value < w)
  }

  /** The files written for the kept widths: for each, the WebP and then
      the JPEG. */
  function Plan(dir: string, base: string, md: Metadata, widths: seq<nat>): seq<Output> {
    if widths == [] then []
    else
      var w := widths[|widths| - 1];
      Plan(dir, base, md, widths[..|widths| - 1])
      + (if Kept(md, w) then Pair(dir, base, w) else [])
  }

  /** `${baseName}-${width}w.webp` and then `.jpeg`, in the image's directory. */
  function Pair(dir: string, base: string, w: nat): seq<Output> {
    [Output(w, "webp", FsTree.Join(dir, AS.VariantFile(base, w, "webp"))),
     Output(w, "jpeg", FsTree.Join(dir, AS.VariantFile(base, w, "jpeg")))]
  }

  /** With the configured widths: an unknown or zero width, or one of at
      least 800, gives all four files; a width from 400 up to 800 only the
      400w pair; a narrower one none. */
  lemma PlanForWidths(dir: string, base: string, md: Metadata)
    ensures var p400 := [Output(400, "webp", FsTree.Join(dir, AS.VariantFile(base, 400, "webp"))),
                         Output(400, "jpeg", FsTree.Join(dir, AS.VariantFile(base, 400, "jpeg")))];
            var p800 := [Output(800, "webp", FsTree.Join(dir, AS.VariantFile(base, 800, "webp"))),
                         Output(800, "jpeg", FsTree.Join(dir, AS.VariantFile(base, 800, "jpeg")))];
            Plan(dir, base, md, AS.Widths)
              == if md.width.None? || md.width.value == 0 || md.width.value >= 800 then p400 + p800
                 else if md.width.value >= 400 then p400
                 else []
  {
    assert AS.Widths[..1] == [400] && [400][..0] == [];
    assert Plan(dir, base, md, []) == [];
  }

  /** The first rejection among the writes, in order. */
  function FirstFailure(outs: seq<Output>, encode: string -> Option<string>): Option<string> {
    if outs == [] then None
    else
      var prev := FirstFailure(outs[..|outs| - 1], encode);
      if prev.Some? then prev else encode(outs[|outs| - 1].path)
  }

  lemma {:induction false} FirstFailureMeans(outs: seq<Output>, encode: string -> Option<string>)
    ensures FirstFailure(outs, encode).None? <==> forall k :: 0 <= k < |outs| ==> encode(outs[k].path).None?
    ensures FirstFailure(outs, encode).Some? ==>
              exists k :: 0 <= k < |outs| && encode(outs[k].path) == FirstFailure(outs, encode)
                          && forall j :: 0 <= j < k ==> encode(outs[j].path).None?
  {
    if outs != [] {
      var init := outs[..|outs| - 1];
      FirstFailureMeans(init, encode);
      assert forall k :: 0 <= k < |init| ==> init[k] == outs[k];
      if FirstFailure(init, encode).None? && FirstFailure(outs, encode).Some? {
        assert encode(outs[|outs| - 1].path) == FirstFailure(outs, encode);
      }
    }
  }

  /** A rejection among the first `n` writes is the one reported. */
  lemma {:induction false} FirstFailurePrefix(outs: seq<Output>, n: nat, encode: string -> Option<string>)
    requires n <= |outs| && FirstFailure(outs[..n], encode).Some?
    ensures FirstFailure(outs, encode) == FirstFailure(outs[..n], encode)
  {
    if n == |outs| {
      assert outs[..n] == outs;
    } else {
      var init := outs[..|outs| - 1];
      assert init[..n] == outs[..n];
      FirstFailurePrefix(init, n, encode);
    }
  }

  /** The plan for the first `m` widths begins the plan for all of them. */
  lemma {:induction false} PlanPrefix(dir: string, base: string, md: Metadata, ws: seq<nat>, m: nat)
    requires m <= |ws|
    ensures |Plan(dir, base, md, ws[..m])| <= |Plan(dir, base, md, ws)|
    ensures Plan(dir, base, md, ws[..m]) == Plan(dir, base, md, ws)[..|Plan(dir, base, md, ws[..m])|]
  {
    if m == |ws| {
      assert ws[..m] == ws;
    } else {
      var init := ws[..|ws| - 1];
      assert init[..m] == ws[..m];
      PlanPrefix(dir, base, md, init, m);
    }
  }

  /** Each written file with the size `getFileSize` then reports. */
  function Sized(outs: seq<Output>, size: string -> nat): (r: seq<Variant>)
    ensures |r| == |outs|
  {
    if outs == [] then []
    else
      var o := outs[|outs| - 1];
      Sized(outs[..|outs| - 1], size) + [Variant(o.width, o.format, o.path, size(o.path))]
  }

  function TotalSize(vs: seq<Variant>): nat {
    if vs == [] then 0 else TotalSize(vs[..|vs| - 1]) + vs[|vs| - 1].size
  }

  /** `generateVariants`: the metadata, then every planned write in order;
      the first rejection is what it throws. */
  function Generated(imagePath: string, meta: string -> Result<Metadata, string>,
                     encode: string -> Option<string>, size: string -> nat): Result<seq<Variant>, string>
  {
    match meta(imagePath)
    case Err(e) => Err(e)
    case Ok(md) => WriteOutcome(FsTree.DirName(imagePath), BaseName(FsTree.FileName(imagePath)), md, encode, size)
  }

  /** The widths loop of `generateVariants`: the first rejection among the
      planned writes, or every planned file with its size. */
  function WriteOutcome(dir: string, base: string, md: Metadata, encode: string -> Option<string>,
                        size: string -> nat): Result<seq<Variant>, string>
  {
    var plan := Plan(dir, base, md, AS.Widths);
    match FirstFailure(plan, encode)
    case Some(e) => Err(e)
    case None => Ok(Sized(plan, size))
  }

  lemma {:induction false} FirstFailureAppend(a: seq<Output>, b: seq<Output>, encode: string -> Option<string>)
    decreases |b|
    ensures FirstFailure(a + b, encode) == if FirstFailure(a, encode).Some? then FirstFailure(a, encode) else FirstFailure(b, encode)
  {
    if b == [] {
      assert a + b == a;
    } else {
      var init := b[..|b| - 1];
      assert (a + b)[..|a + b| - 1] == a + init;
      FirstFailureAppend(a, init, encode);
    }
  }

  lemma {:induction false} SizedAppend(a: seq<Output>, b: seq<Output>, size: string -> nat)
    decreases |b|
    ensures Sized(a + b, size) == Sized(a, size) + Sized(b, size)
  {
    if b == [] {
      assert a + b == a;
    } else {
      var init := b[..|b| - 1];
      assert (a + b)[..|a + b| - 1] == a + init;
      SizedAppend(a, init, size);
    }
  }

  lemma {:induction false} TotalSizeAppend(x: seq<Variant>, y: seq<Variant>)
    decreases |y|
    ensures TotalSize(x + y) == TotalSize(x) + TotalSize(y)
  {
    if y == [] {
      assert x + y == x;
    } else {
      var init := y[..|y| - 1];
      assert (x + y)[..|x + y| - 1] == x + init;
      TotalSizeAppend(x, init);
    }
  }

  /** One kept width: the WebP, then the JPEG, each followed by its size. */
  method WritePair(dir: string, base: string, width: nat, encode: string -> Option<string>, size: string -> nat)
    returns (failed: Option<string>, written: seq<Variant>, optimized: nat)
    ensures failed == FirstFailure(Pair(dir, base, width), encode)
    ensures failed.None? ==> written == Sized(Pair(dir, base, width), size) && optimized == TotalSize(written)
  {
    var pair := Pair(dir, base, width);
    var webp, jpeg := pair[0], pair[1];
    assert pair[..|pair| - 1] == [webp] && [webp][..0] == [];
    assert FirstFailure([webp], encode) == encode(webp.path);
    failed := encode(webp.path);
    if failed.Some? {
      return failed, [], 0;
    }
    var webpSize := size(webp.path);
    failed := encode(jpeg.path);
    if failed.Some? {
      return failed, [], 0;
    }
    var jpegSize := size(jpeg.path);
    written := [Variant(width, "webp", webp.path, webpSize), Variant(width, "jpeg", jpeg.path, jpegSize)];
    assert written[..|written| - 1] == [written[0]] && [written[0]][..0] == [];
    assert Sized([webp], size) == [written[0]];
    assert TotalSize([written[0]]) == webpSize;
    optimized := webpSize + jpegSize;
  }

  /** One more width adds its pair when it is kept, and nothing otherwise. */
  lemma PlanStep(dir: string, base: string, md: Metadata, widths: seq<nat>, k: nat)
    requires k < |widths|
    ensures Plan(dir, base, md, widths[..k + 1])
              == Plan(dir, base, md, widths[..k]) + (if Kept(md, widths[k]) then Pair(dir, base, widths[k]) else [])
  {
    assert widths[..k + 1][..k] == widths[..k];
  }

  /** The widths loop over any list of widths. */
  method WriteAll(dir: string, base: string, md: Metadata, widths: seq<nat>,
                  encode: string -> Option<string>, size: string -> nat)
    returns (r: Result<seq<Variant>, string>, optimized: nat)
    ensures FirstFailure(Plan(dir, base, md, widths), encode).Some? ==> r == Err(FirstFailure(Plan(dir, base, md, widths), encode).value)
    ensures FirstFailure(Plan(dir, base, md, widths), encode).None? ==>
              r == Ok(Sized(Plan(dir, base, md, widths), size)) && optimized == TotalSize(r.value)
  {
    optimized := 0;
    var variants: seq<Variant> := [];
    ghost var plan: seq<Output> := [];
    var k := 0;
    while k < |widths|
      invariant 0 <= k <= |widths|
      invariant plan == Plan(dir, base, md, widths[..k])
      invariant FirstFailure(plan, encode).None?
      invariant variants == Sized(plan, size)
      invariant optimized == TotalSize(variants)
    {
      var width := widths[k];
      PlanStep(dir, base, md, widths, k);
      if Kept(md, width) {
        var failed, written, pairSize := WritePair(dir, base, width, encode, size);
        FirstFailureAppend(plan, Pair(dir, base, width), encode);
        if failed.Some? {
          PlanFailureStays(dir, base, md, widths, k + 1, encode);
          return Err(failed.value), optimized;
        }
        SizedAppend(plan, Pair(dir, base, width), size);
        TotalSizeAppend(variants, written);
        variants := variants + written;
        optimized := optimized + pairSize;
        plan := plan + Pair(dir, base, width);
      } else {
        assert plan + [] == plan;
      }
      k := k + 1;
    }
    assert widths[..k] == widths;
    r := Ok(variants);
  }

  /** A rejection while writing the first `m` widths is the one reported. */
  lemma PlanFailureStays(dir: string, base: string, md: Metadata, ws: seq<nat>, m: nat, encode: string -> Option<string>)
    requires m <= |ws| && FirstFailure(Plan(dir, base, md, ws[..m]), encode).Some?
    ensures FirstFailure(Plan(dir, base, md, ws), encode) == FirstFailure(Plan(dir, base, md, ws[..m]), encode)
  {
    PlanPrefix(dir, base, md, ws, m);
    var all := Plan(dir, base, md, ws);
    FirstFailurePrefix(all, |Plan(dir, base, md, ws[..m])|, encode);
  }

  method WriteVariants(dir: string, base: string, md: Metadata, encode: string -> Option<string>, size: string -> nat)
    returns (r: Result<seq<Variant>, string>, optimized: nat)
    ensures r == WriteOutcome(dir, base, md, encode, size)
    ensures r.Ok? ==> optimized == TotalSize(r.value)
  {
    r, optimized := WriteAll(dir, base, md, AS.Widths, encode, size);
  }

  /** A failure to report: `{ path, error }`. */
  datatype Failure = Failure(path: string, error: string)

  /** The fields of `stats`. */
  datatype Totals = Totals(totalOriginalSize: nat, totalOptimizedSize: nat, processedCount: nat,
                           skippedCount: nat, errors: seq<Failure>)

  /** `stats` after `generateVariants(imagePath)` returned `r`: the
      original's size is counted first, and only a completed image adds
      its variants' sizes and counts as processed. */
  function AfterGenerate(t: Totals, imagePath: string, r: Result<seq<Variant>, string>, size: string -> nat): Totals {
    var withOriginal := t.(totalOriginalSize := t.totalOriginalSize + size(imagePath));
    if r.Ok? then
      withOriginal.(totalOptimizedSize := t.totalOptimizedSize + TotalSize(r.value), processedCount := t.processedCount + 1)
    else withOriginal
  }

  /** One image of a batch, whose `generateVariants` returned `r`: a
      rejection is caught and recorded. */
  function ProcessOne(t: Totals, imagePath: string, r: Result<seq<Variant>, string>, size: string -> nat): Totals {
    var after := AfterGenerate(t, imagePath, r, size);
    if r.Err? then after.(errors := after.errors + [Failure(imagePath, r.error)]) else after
  }

  /** The batches of `processImages`, one image after another. */
  function ProcessAll(t: Totals, images: seq<string>, meta: string -> Result<Metadata, string>, encode: string -> Option<string>, size: string -> nat): Totals {
    if images == [] then t
    else
      var p := images[|images| - 1];
      ProcessOne(ProcessAll(t, images[..|images| - 1], meta, encode, size), p, Generated(p, meta, encode, size), size)
  }

  lemma ProcessAllStep(t: Totals, images: seq<string>, n: nat, meta: string -> Result<Metadata, string>, encode: string -> Option<string>, size: string -> nat)
    requires n < |images|
    ensures ProcessAll(t, images[..n + 1], meta, encode, size)
              == ProcessOne(ProcessAll(t, images[..n], meta, encode, size), images[n], Generated(images[n], meta, encode, size), size)
  {
    assert images[..n + 1][..n] == images[..n];
  }

  function OriginalSizes(images: seq<string>, size: string -> nat): nat {
    if images == [] then 0 else OriginalSizes(images[..|images| - 1], size) + size(images[|images| - 1])
  }

  /** Every image is either processed or has exactly one error recorded
      under its path, every original size is counted once, and the skip
      count does not move. */
  lemma {:induction false} ProcessAllAccounts(t: Totals, images: seq<string>, meta: string -> Result<Metadata, string>, encode: string -> Option<string>, size: string -> nat)
    ensures var u := ProcessAll(t, images, meta, encode, size);
            t.processedCount <= u.processedCount && |t.errors| <= |u.errors|
            && u.processedCount - t.processedCount + |u.errors| - |t.errors| == |images|
            && u.errors[..|t.errors|] == t.errors
            && (forall k :: |t.errors| <= k < |u.errors| ==> u.errors[k].path in images)
            && u.totalOriginalSize == t.totalOriginalSize + OriginalSizes(images, size)
            && u.totalOptimizedSize >= t.totalOptimizedSize
            && u.skippedCount == t.skippedCount
  {
    if images != [] {
      var init := images[..|images| - 1];
      ProcessAllAccounts(t, init, meta, encode, size);
      var v := ProcessAll(t, init, meta, encode, size);
      var u := ProcessAll(t, images, meta, encode, size);
      assert forall k :: |t.errors| <= k < |v.errors| ==> v.errors[k].path in init;
      assert u.errors[..|v.errors|] == v.errors;
      assert u.errors[..|t.errors|] == v.errors[..|t.errors|];
    }
  }

  /** The two reasons the filter loop skips an image. */
  function Excluded(list: Listing): string -> bool {
    p => ShouldSkip(p) || HasVariants(p, list)
  }

  /** The images the filter loop keeps, in order. */
  function ToProcess(images: seq<string>, excluded: string -> bool): (r: seq<string>)
    ensures |r| <= |images|
  {
    if images == [] then []
    else
      var p := images[|images| - 1];
      ToProcess(images[..|images| - 1], excluded) + (if excluded(p) then [] else [p])
  }

  /** An image is kept exactly when no pattern excludes it and its WebP
      variants are not both listed. */
  lemma {:induction false} ToProcessMeans(images: seq<string>, list: Listing)
    ensures forall p :: p in ToProcess(images, Excluded(list)) <==> p in images && !ShouldSkip(p) && !HasVariants(p, list)
  {
    if images != [] {
      var init := images[..|images| - 1];
      ToProcessMeans(init, list);
      assert images == init + [images[|images| - 1]];
    }
  }

  /** `stats` after the filter loop: one more skip per image left out. */
  function AfterFilter(t: Totals, images: seq<string>, excluded: string -> bool): Totals {
    t.(skippedCount := t.skippedCount + (|images| - |ToProcess(images, excluded)|))
  }

  /** `getAllJpegFiles(imgDir)`: every file under it whose name ends in
      `.jpg` or `.jpeg`, in any case. */
  function JpegFiles(tree: seq<FsTree.Entry>): seq<string> {
    FsTree.Walk(ImgDir, tree, IsJpegEntry())
  }

  function IsJpegEntry(): (string, string) -> bool {
    (name, path) => ImageNames.IsJpegName(name)
  }

  /** The module-level `stats` object and the functions that update it. */
  class Stats {
    var totalOriginalSize: nat
    var totalOptimizedSize: nat
    var processedCount: nat
    var skippedCount: nat
    var errors: seq<Failure>

    function Snapshot(): Totals
      reads this
    {
      Totals(totalOriginalSize, totalOptimizedSize, processedCount, skippedCount, errors)
    }

    constructor ()
      ensures Snapshot() == Totals(0, 0, 0, 0, [])
    {
      totalOriginalSize, totalOptimizedSize, processedCount, skippedCount, errors := 0, 0, 0, 0, [];
    }

    /** `generateVariants`. */
    method GenerateVariants(imagePath: string, meta: string -> Result<Metadata, string>,
                            encode: string -> Option<string>, size: string -> nat)
      returns (r: Result<seq<Variant>, string>)
      modifies this
      ensures r == Generated(imagePath, meta, encode, size)
      ensures Snapshot() == AfterGenerate(old(Snapshot()), imagePath, r, size)
    {
      totalOriginalSize := totalOriginalSize + size(imagePath);
      var metadata := meta(imagePath);
      if metadata.Err? {
        return Err(metadata.error);
      }
      var optimized;
      r, optimized := WriteVariants(FsTree.DirName(imagePath), BaseName(FsTree.FileName(imagePath)), metadata.value, encode, size);
      if r.Ok? {
        totalOptimizedSize := totalOptimizedSize + optimized;
        processedCount := processedCount + 1;
      }
    }

    /** One image of a batch, its rejection caught and recorded. */
    method ProcessImage(imagePath: string, meta: string -> Result<Metadata, string>,
                        encode: string -> Option<string>, size: string -> nat)
      modifies this
      ensures Snapshot() == ProcessOne(old(Snapshot()), imagePath, Generated(imagePath, meta, encode, size), size)
    {
      var r := GenerateVariants(imagePath, meta, encode, size);
      if r.Err? {
        errors := errors + [Failure(imagePath, r.error)];
      }
    }

    /** The filter loop of `processImages`; `excluded` is the pair of
        tests `shouldSkip` and `hasVariants`, either of which skips. */
    method FilterImages(images: seq<string>, excluded: string -> bool) returns (toProcess: seq<string>)
      modifies this
      ensures toProcess == ToProcess(images, excluded)
      ensures Snapshot() == AfterFilter(old(Snapshot()), images, excluded)
    {
      toProcess := [];
      var i := 0;
      while i < |images|
        invariant 0 <= i <= |images|
        invariant toProcess == ToProcess(images[..i], excluded)
        invariant Snapshot() == AfterFilter(old(Snapshot()), images[..i], excluded)
      {
        var imagePath := images[i];
        assert images[..i + 1][..i] == images[..i];
        if excluded(imagePath) {
          skippedCount := skippedCount + 1;
        } else {
          toProcess := toProcess + [imagePath];
        }
        i := i + 1;
      }
      assert images[..i] == images;
    }

    /** `processImages`: the filter, then the batches in order. */
    method ProcessImages(images: seq<string>, list: Listing, meta: string -> Result<Metadata, string>,
                         encode: string -> Option<string>, size: string -> nat)
      modifies this
      ensures Snapshot() == ProcessAll(AfterFilter(old(Snapshot()), images, Excluded(list)), ToProcess(images, Excluded(list)),
                                       meta, encode, size)
    {
      var toProcess := FilterImages(images, Excluded(list));
      ghost var start := Snapshot();
      assert toProcess[..0] == [];
      var i := 0;
      while i < |toProcess|
        invariant 0 <= i
        invariant Snapshot() == ProcessAll(start, toProcess[..if i < |toProcess| then i else |toProcess|], meta, encode, size)
      {
        var end := if i + BatchSize < |toProcess| then i + BatchSize else |toProcess|;
        ProcessBatch(toProcess, i, end, start, meta, encode, size);
        i := i + BatchSize;
      }
      assert toProcess[..if i < |toProcess| then i else |toProcess|] == toProcess;
    }

    /** One batch, `images[from..to]`: its images are awaited together,
        and are processed here one after another. */
    method ProcessBatch(images: seq<string>, from: nat, to: nat, ghost start: Totals,
                        meta: string -> Result<Metadata, string>, encode: string -> Option<string>, size: string -> nat)
      requires from <= to <= |images|
      requires Snapshot() == ProcessAll(start, images[..from], meta, encode, size)
      modifies this
      ensures Snapshot() == ProcessAll(start, images[..to], meta, encode, size)
    {
      var k := from;
      while k < to
        invariant from <= k <= to
        invariant Snapshot() == ProcessAll(start, images[..k], meta, encode, size)
      {
        var imagePath := images[k];
        ProcessAllStep(start, images, k, meta, encode, size);
        ProcessImage(imagePath, meta, encode, size);
        assert Snapshot() == ProcessAll(start, images[..k + 1], meta, encode, size);
        k := k + 1;
        assert Snapshot() == ProcessAll(start, images[..k], meta, encode, size);
      }
    }

    /** `updateArtworksJson`: the number of artworks whose main image was
      updated and the content written, or the failure recorded in
      `stats.errors` under the file's path. */
    method UpdateArtworksJson(content: Option<Json>, list: Listing) returns (r: Option<(Json, nat)>)
      modifies this
      ensures r == ArtworksOutcome(content, list)
      ensures Snapshot() == AfterArtworks(old(Snapshot()), content, list)
    {
      var outcome: Result<(Json, AS.Report), string>;
      if content.None? {
        outcome := Err("Unexpected token in JSON");
      } else {
        var artworks := AS.Iterated(content.value);
        if artworks.None? {
          outcome := Err("artworks is not iterable");
        } else {
          var rep := AS.UpdateArtworks(artworks.value, LookupOf(list), false);
          outcome := if rep.Err? then Err(rep.error) else Ok((AS.Written(content.value, rep.value), rep.value));
        }
      }
      assert outcome == AS.UpdateFile(content, LookupOf(list), false);
      if outcome.Err? {
        errors := errors + [Failure(ArtworksJsonPath, outcome.error)];
        return None;
      }
      r := Some((outcome.value.0, outcome.value.1.mainUpdated));
    }
  }

  /** `stats` after `updateArtworksJson`: a failure is recorded under the
      file's path, and nothing else changes. */
  function AfterArtworks(t: Totals, content: Option<Json>, list: Listing): Totals {
    match AS.UpdateFile(content, LookupOf(list), false)
    case Err(e) => t.(errors := t.errors + [Failure(ArtworksJsonPath, e)])
    case Ok(_) => t
  }

  function ArtworksOutcome(content: Option<Json>, list: Listing): Option<(Json, nat)> {
    match AS.UpdateFile(content, LookupOf(list), false)
    case Err(_) => None
    case Ok((v, rep)) => Some((v, rep.mainUpdated))
  }

  /** Here only main images are counted, and an updated main image always
      gets the 400w WebP as its thumb. */
  lemma ArtworksOutcomeCounts(content: Option<Json>, list: Listing)
    ensures ArtworksOutcome(content, list).Some? ==>
              content.Some? && AS.Iterated(content.value).Some?
              && ArtworksOutcome(content, list).value.1 <= |AS.Iterated(content.value).value|
  {
    if content.Some? && AS.Iterated(content.value).Some? {
      AS.UpdateAllMeans(AS.Iterated(content.value).value, LookupOf(list), false);
    }
  }

  lemma MainImageGetsThumb(a: Json, list: Listing)
    requires AS.MainStep(a, LookupOf(list)).Ok? && AS.MainStep(a, LookupOf(list)).value.1
    ensures var imagePath := Member(a, "image").value.s;
            var base := BaseName(FsTree.FileName("docs/" + imagePath));
            Member(AS.MainStep(a, LookupOf(list)).value.0, "thumb")
              == Some(JStr(FsTree.DirName(imagePath) + "/" + AS.VariantFile(base, 400, "webp")))
  {
    AS.MainStepRules(a, LookupOf(list));
    SrcsetForMeans(Member(a, "image").value.s, list);
  }

  /** `main`: collect the JPEGs, process them, then update `artworks.json`
      against the disk as it is after processing; the final statistics and
      what was written. */
  method Run(tree: seq<FsTree.Entry>, before: Listing, after: Listing, meta: string -> Result<Metadata, string>,
             encode: string -> Option<string>, size: string -> nat, content: Option<Json>)
    returns (totals: Totals, written: Option<(Json, nat)>)
    ensures written == ArtworksOutcome(content, after)
    ensures totals == AfterArtworks(ProcessAll(AfterFilter(Totals(0, 0, 0, 0, []), JpegFiles(tree), Excluded(before)),
                                               ToProcess(JpegFiles(tree), Excluded(before)),
                                               meta, encode, size),
                                    content, after)
  {
    var scanner := new FsTree.Scanner(IsJpegEntry());
    scanner.Scan(ImgDir, tree);
    var images := scanner.found;
    assert images == JpegFiles(tree);
    var stats := new Stats();
    stats.ProcessImages(images, before, meta, encode, size);
    ghost var processed := stats.Snapshot();
    assert processed == ProcessAll(AfterFilter(Totals(0, 0, 0, 0, []), images, Excluded(before)),
                                   ToProcess(images, Excluded(before)), meta, encode, size);
    written := stats.UpdateArtworksJson(content, after);
    totals := stats.Snapshot();
    assert totals == AfterArtworks(processed, content, after);
  }
}
