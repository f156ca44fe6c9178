/** scripts/update-srcsets.js: for every image named in `artworks.json`,
    looks for its `-400w`/`-800w` WebP and JPEG variants next to it under
    `docs/` and records them as `srcset` strings (and a `thumb`) in the
    file. The file system is a parameter (`fs.access` as a predicate on
    paths relative to the project root, `JSON.parse` as an optional
    value); the console report is not modelled, except for the gallery-count
    log of lines 127-128, whose `filter` can throw. */
module UpdateSrcsets {
  import opened Wrappers
  import opened Json
  import Strings
  import ImageNames
  import FsTree
  import AS = ArtworkSrcsets

  /** `getBaseName`: `/\.(jpeg|jpg|png)$/i`. */
  const ImageExtensions: seq<string> := [".jpeg", ".jpg", ".png"]

  /** `path.join(projectRoot, 'docs', imagePath)`, relative to the root. */
  function DocsPath(imagePath: string): string {
    "docs/" + imagePath
  }

  function BaseName(filename: string): string {
    ImageNames.StripExtension(filename, ImageExtensions)
  }

  /** `addSrcsetToImage`: `None` when no variant of either format exists
      for either width; otherwise the entries of each format joined by
      ", ", and a `thumb` naming the 400w WebP when any WebP entry exists. */
  function SrcsetFor(imagePath: string, onDisk: string -> bool): Option<AS.SrcsetUpdate> {
    var full := DocsPath(imagePath);
    var dir := FsTree.DirName(full);
    var base := BaseName(FsTree.FileName(full));
    var relDir := FsTree.DirName(imagePath);
    var webp := AS.Entries(relDir, dir, base, "webp", AS.Widths, onDisk);
    var jpeg := AS.Entries(relDir, dir, base, "jpeg", AS.Widths, onDisk);
    if webp == [] && jpeg == [] then None
    else
      Some(AS.SrcsetUpdate(
        if webp != [] then Some(relDir + "/" + AS.VariantFile(base, 400, "webp")) else None,
        AS.Srcset(Strings.Join(webp, ", "), Strings.Join(jpeg, ", "))))
  }

  /** The variant file of `imagePath` for one width and format, as a path
      relative to the project root. */
  function VariantPath(imagePath: string, width: nat, ext: string): string {
    FsTree.Join(FsTree.DirName(DocsPath(imagePath)), AS.VariantFile(BaseName(FsTree.FileName(DocsPath(imagePath))), width, ext))
  }

  /** There is a srcset exactly when one of the four variant files exists,
      and a thumb exactly when one of the two WebP files does; the thumb is
      always the 400w WebP, even when only the 800w one exists. */
  lemma SrcsetForMeans(imagePath: string, onDisk: string -> bool)
    ensures SrcsetFor(imagePath, onDisk).None? <==>
              !onDisk(VariantPath(imagePath, 400, "webp")) && !onDisk(VariantPath(imagePath, 800, "webp"))
              && !onDisk(VariantPath(imagePath, 400, "jpeg")) && !onDisk(VariantPath(imagePath, 800, "jpeg"))
    ensures SrcsetFor(imagePath, onDisk).Some? ==>
              (SrcsetFor(imagePath, onDisk).value.thumb.Some? <==>
                 onDisk(VariantPath(imagePath, 400, "webp")) || onDisk(VariantPath(imagePath, 800, "webp")))
    ensures SrcsetFor(imagePath, onDisk).Some? && SrcsetFor(imagePath, onDisk).value.thumb.Some? ==>
              SrcsetFor(imagePath, onDisk).value.thumb.value
                == FsTree.DirName(imagePath) + "/" + BaseName(FsTree.FileName(DocsPath(imagePath))) + "-400w.webp"
  {
    var full := DocsPath(imagePath);
    var dir := FsTree.DirName(full);
    var base := BaseName(FsTree.FileName(full));
    var relDir := FsTree.DirName(imagePath);
    assert VariantPath(imagePath, 400, "webp") == FsTree.Join(dir, AS.VariantFile(base, 400, "webp"));
    assert VariantPath(imagePath, 800, "webp") == FsTree.Join(dir, AS.VariantFile(base, 800, "webp"));
    assert VariantPath(imagePath, 400, "jpeg") == FsTree.Join(dir, AS.VariantFile(base, 400, "jpeg"));
    assert VariantPath(imagePath, 800, "jpeg") == FsTree.Join(dir, AS.VariantFile(base, 800, "jpeg"));
    AS.EntriesForWidths(relDir, dir, base, "webp", onDisk);
    AS.EntriesForWidths(relDir, dir, base, "jpeg", onDisk);
    AS.ThumbFile(base);
  }

  /** When all four variants exist, each srcset lists the 400w file and
      then the 800w file, with their widths, under the image's own
      directory. */
  lemma FullSrcset(imagePath: string, onDisk: string -> bool)
    requires onDisk(VariantPath(imagePath, 400, "webp")) && onDisk(VariantPath(imagePath, 800, "webp"))
    requires onDisk(VariantPath(imagePath, 400, "jpeg")) && onDisk(VariantPath(imagePath, 800, "jpeg"))
    ensures SrcsetFor(imagePath, onDisk).Some?
    ensures var relDir := FsTree.DirName(imagePath);
            var base := BaseName(FsTree.FileName(DocsPath(imagePath)));
            SrcsetFor(imagePath, onDisk).value.srcset
              == AS.Srcset(AS.SrcsetEntry(relDir, AS.VariantFile(base, 400, "webp"), 400) + ", "
                             + AS.SrcsetEntry(relDir, AS.VariantFile(base, 800, "webp"), 800),
                           AS.SrcsetEntry(relDir, AS.VariantFile(base, 400, "jpeg"), 400) + ", "
                             + AS.SrcsetEntry(relDir, AS.VariantFile(base, 800, "jpeg"), 800))
  {
    var full := DocsPath(imagePath);
    var dir := FsTree.DirName(full);
    var base := BaseName(FsTree.FileName(full));
    var relDir := FsTree.DirName(imagePath);
    AS.JoinedEntries(relDir, dir, base, "webp", onDisk);
    AS.JoinedEntries(relDir, dir, base, "jpeg", onDisk);
  }

  /** `addSrcsetToImage`, the width loop. */
  method AddSrcsetToImage(imagePath: string, onDisk: string -> bool) returns (r: Option<AS.SrcsetUpdate>)
    ensures r == SrcsetFor(imagePath, onDisk)
  {
    var fullPath := DocsPath(imagePath);
    var dir := FsTree.DirName(fullPath);
    var baseName := BaseName(FsTree.FileName(fullPath));
    var relativeDir := FsTree.DirName(imagePath);
    var webp, jpeg, hasVariants := AS.ExistingVariants(relativeDir, dir, baseName, onDisk);
    if !hasVariants {
      return None;
    }
    var thumb := if |webp| > 0 then Some(relativeDir + "/" + AS.VariantFile(baseName, 400, "webp")) else None;
    r := Some(AS.SrcsetUpdate(thumb, AS.Srcset(Strings.Join(webp, ", "), Strings.Join(jpeg, ", "))));
  }

  /** What the script writes and reports: the new file content, the
      number of artworks updated, and the number of images (main or in
      `images`) that got a srcset. */
  datatype Summary = Summary(written: Json, updatedCount: nat, imagesWithVariants: nat)

  function Summarise(r: Result<(Json, AS.Report), string>): Result<Summary, string> {
    match r
    case Err(e) => Err(e)
    case Ok((v, rep)) => Ok(Summary(v, rep.updated, rep.mainUpdated + rep.imagesUpdated))
  }

  /** The per-image lookup this script hands to the shared rewrite. */
  function LookupOn(onDisk: string -> bool): AS.Lookup {
    p => SrcsetFor(p, onDisk)
  }

  /** The whole run, with the gallery-count log of lines 127-128. */
  function Outcome(content: Option<Json>, onDisk: string -> bool): Result<Summary, string> {
    Summarise(AS.UpdateFile(content, LookupOn(onDisk), true))
  }

  /** An updated artwork has at least one image with variants, and no
      artwork is counted twice. */
  lemma OutcomeCounts(content: Option<Json>, onDisk: string -> bool)
    ensures Outcome(content, onDisk).Ok? ==>
              content.Some? && AS.Iterated(content.value).Some?
              && Outcome(content, onDisk).value.updatedCount <= |AS.Iterated(content.value).value|
              && Outcome(content, onDisk).value.updatedCount <= Outcome(content, onDisk).value.imagesWithVariants
  {
    if content.Some? && AS.Iterated(content.value).Some? {
      AS.UpdateAllMeans(AS.Iterated(content.value).value, LookupOn(onDisk), true);
    }
  }

  /** When one artwork's update comes out with a truthy `imagesSrcset` that
      is not an array, the gallery log throws, the catch exits and nothing is
      written. */
  lemma GalleryLogFails(artworks: seq<Json>, onDisk: string -> bool, k: nat)
    requires k < |artworks|
    requires var plain := AS.UpdateArtwork(artworks[k], LookupOn(onDisk), false);
      plain.Ok? && TruthyOpt(Member(artworks[k], "images")) && Member(artworks[k], "images").value.JArr?
      && AS.GalleryLogThrows(plain.value)
    ensures Outcome(Some(JArr(artworks)), onDisk).Err?
  {
    AS.LoggedArtwork(artworks[k], LookupOn(onDisk));
    AS.UpdateAllMeans(artworks, LookupOn(onDisk), true);
  }

  /** One artwork whose main image has variants, with an empty `images`
      array and an object (or any truthy non-array) already under
      `imagesSrcset`: the run fails with `filter is not a function`. */
  lemma ForeignSrcsetStopsTheRun(a: Json, onDisk: string -> bool)
    requires a.JObj? && Member(a, "image").Some? && Member(a, "image").value.JStr?
    requires Member(a, "image").value.s != "" && SrcsetFor(Member(a, "image").value.s, onDisk).Some?
    requires Member(a, "images") == Some(JArr([]))
    requires TruthyOpt(Member(a, "imagesSrcset")) && !Member(a, "imagesSrcset").value.JArr?
    ensures Outcome(Some(JArr([a])), onDisk) == Err(AS.FilterNotAFunction)
  {
    AS.ForeignSrcsetArtwork(a, LookupOn(onDisk));
    assert [a][..0] == [];
    assert AS.UpdateAll([a], LookupOn(onDisk), true) == Err(AS.FilterNotAFunction);
  }

  /** `updateArtworksJson`: parse, rewrite every artwork, write back. */
  method UpdateArtworksJson(content: Option<Json>, onDisk: string -> bool) returns (r: Result<Summary, string>)
    ensures r == Outcome(content, onDisk)
  {
    if content.None? {
      return Err("Unexpected token in JSON");
    }
    var artworks := AS.Iterated(content.value);
    if artworks.None? {
      return Err("artworks is not iterable");
    }
    var rep := AS.UpdateArtworks(artworks.value, LookupOn(onDisk), true);
    if rep.Err? {
      return Err(rep.error);
    }
    r := Ok(Summary(AS.Written(content.value, rep.value), rep.value.updated, rep.value.mainUpdated + rep.value.imagesUpdated));
  }
}
