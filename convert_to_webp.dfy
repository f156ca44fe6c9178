/** scripts/convert-to-webp.js: finds every JPEG under docs/img that is not
    a generated `-<w>w.` variant and has no WebP sibling yet, converts them
    five at a time, and totals the sizes of the conversions that succeeded.
    The directory tree is a value, the existence check (`stat`) and the
    conversion (`sharp`, then `stat` of both files) are parameters; the
    console report with its percentages is not modelled. */
module ConvertToWebp {
  import opened Wrappers
  import Strings
  import ImageNames
  import FsTree
  import Batching

  const ImgDir: string := "docs/img"
  const Quality: nat := 80
  const BatchSize: nat := 5

  /** `path.replace(/\.(jpg|jpeg)$/i, '.webp')`. */
  function WebpPath(p: string): (r: string)
    ensures !ImageNames.IsJpegName(p) ==> r == p
    ensures Strings.EndsWithIgnoreCase(p, ".jpeg") ==> r == p[..|p| - 5] + ".webp"
    ensures Strings.EndsWithIgnoreCase(p, ".jpg") ==> r == p[..|p| - 4] + ".webp"
  {
    var exts := [".jpg", ".jpeg"];
    if Strings.EndsWithIgnoreCase(p, exts[1]) then
      assert !Strings.EndsWithIgnoreCase(p, exts[0]) by {
        assert Strings.ToLower(p)[|p| - 4] == 'j';
      }
      ImageNames.StripExtension(p, exts) + ".webp"
    else if Strings.EndsWithIgnoreCase(p, exts[0]) then ImageNames.StripExtension(p, exts) + ".webp"
    else p
  }

  /** The three tests of `findJpegImages`: a JPEG by name, not a variant,
      and no WebP next to it. */
  predicate IsCandidate(name: string, path: string, onDisk: string -> bool) {
    ImageNames.IsJpegName(name) && !ImageNames.HasVariantTag(name) && !onDisk(WebpPath(path))
  }

  function Candidates(tree: seq<FsTree.Entry>, onDisk: string -> bool): seq<string> {
    FsTree.Walk(ImgDir, tree, (name, path) => IsCandidate(name, path, onDisk))
  }

  /** Every image found passes all three tests under its own file name. */
  lemma CandidatesQualify(tree: seq<FsTree.Entry>, onDisk: string -> bool)
    requires FsTree.SlashFree(tree)
    ensures forall k :: 0 <= k < |Candidates(tree, onDisk)| ==>
              var p := Candidates(tree, onDisk)[k];
              ImageNames.IsJpegName(FsTree.FileName(p)) && !ImageNames.HasVariantTag(FsTree.FileName(p))
              && !onDisk(WebpPath(p))
  {
    FsTree.WalkSelects(ImgDir, tree, (name, path) => IsCandidate(name, path, onDisk));
  }

  /** `findJpegImages(IMG_DIR)`. */
  method FindJpegImages(tree: seq<FsTree.Entry>, onDisk: string -> bool) returns (images: seq<string>)
    ensures images == Candidates(tree, onDisk)
  {
    var scanner := new FsTree.Scanner((name, path) => IsCandidate(name, path, onDisk));
    scanner.Scan(ImgDir, tree);
    images := scanner.found;
  }

  /** Sizes in bytes of a JPEG and of the WebP made from it. */
  datatype Sizes = Sizes(original: nat, webp: nat)

  datatype Totals = Totals(converted: nat, totalOriginal: nat, totalWebP: nat)

  function Add(t: Totals, result: Option<Sizes>): Totals {
    match result
    case None => t
    case Some(s) => Totals(t.converted + 1, t.totalOriginal + s.original, t.totalWebP + s.webp)
  }

  /** The totals after the results of `images`, in order; a failed
      conversion (`null`) adds nothing. */
  function Tally(images: seq<string>, convert: string -> Option<Sizes>): Totals {
    if images == [] then Totals(0, 0, 0)
    else Add(Tally(images[..|images| - 1], convert), convert(images[|images| - 1]))
  }

  /** Only successful conversions count, and each counts once. */
  lemma {:induction false} TallyCountsSuccesses(images: seq<string>, convert: string -> Option<Sizes>)
    ensures Tally(images, convert).converted <= |images|
    ensures Tally(images, convert).converted == |images| <==> forall k :: 0 <= k < |images| ==> convert(images[k]).Some?
    ensures (forall k :: 0 <= k < |images| ==> convert(images[k]).None?) ==> Tally(images, convert) == Totals(0, 0, 0)
  {
    if images != [] {
      var init := images[..|images| - 1];
      TallyCountsSuccesses(init, convert);
      assert forall k :: 0 <= k < |init| ==> init[k] == images[k];
    }
  }

  /** Tallying the batches one after another is tallying the list. */
  lemma BatchedTally(images: seq<string>, convert: string -> Option<Sizes>)
    ensures Tally(Batching.Flatten(Batching.Batches(images, BatchSize)), convert) == Tally(images, convert)
  {
    Batching.BatchesCover(images, BatchSize);
  }

  /** One batch: its conversions are awaited together, and their results
      are added in order. */
  method ConvertBatch(batch: seq<string>, convert: string -> Option<Sizes>, ghost done: seq<string>, totals: Totals)
    returns (t: Totals)
    requires totals == Tally(done, convert)
    ensures t == Tally(done + batch, convert)
  {
    var results := seq(|batch|, k requires 0 <= k < |batch| => convert(batch[k]));
    t := totals;
    var j := 0;
    assert done + batch[..0] == done;
    while j < |results|
      invariant 0 <= j <= |results|
      invariant t == Tally(done + batch[..j], convert)
    {
      ghost var next := done + batch[..j + 1];
      assert next[..|next| - 1] == done + batch[..j] && next[|next| - 1] == batch[j];
      t := Add(t, results[j]);
      j := j + 1;
    }
    assert batch[..j] == batch;
  }

  /** `main`: `None` is the early return when every JPEG already has its
      WebP; otherwise the totals of converting the candidates in batches of
      five, and the images in the order they were attempted. */
  method Run(tree: seq<FsTree.Entry>, onDisk: string -> bool, convert: string -> Option<Sizes>)
    returns (r: Option<Totals>, attempted: seq<string>)
    ensures r.None? <==> Candidates(tree, onDisk) == []
    ensures r.Some? ==> r.value == Tally(Candidates(tree, onDisk), convert)
    ensures attempted == Candidates(tree, onDisk)
  {
    var images := FindJpegImages(tree, onDisk);
    attempted := [];
    if |images| == 0 {
      return None, attempted;
    }
    var totals := Totals(0, 0, 0);
    var i := 0;
    while i < |images|
      invariant 0 <= i
      invariant attempted == images[..if i < |images| then i else |images|]
      invariant totals == Tally(attempted, convert)
    {
      var end := if i + BatchSize < |images| then i + BatchSize else |images|;
      var batch := images[i..end];
      totals := ConvertBatch(batch, convert, attempted, totals);
      assert images[..end] == attempted + batch;
      attempted := attempted + batch;
      i := i + BatchSize;
      assert attempted == images[..if i < |images| then i else |images|];
    }
    assert attempted == images;
    r := Some(totals);
  }
}
