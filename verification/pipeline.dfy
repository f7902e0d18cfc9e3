/** The layout path of `main`: normalise the image sizes, sort them tallest
    first, and pack them with a padding of 12 pixels. */
module Pipeline {
  import opened LayoutTypes
  import opened ShelfPacker
  import opened ShelfGeometry
  import opened HeightOrder
  import opened SizeNormalizer

  /** The padding `main` packs with. */
  const ShelfPadding := 12

  function PageConfig(pageW: int, pageH: int): Config
  {
    Config(pageW, pageH, ShelfPadding)
  }

  /** The size list handed to the packer: every image normalised, tagged
      with its position, then ordered tallest first, images of equal height
      keeping their original order. */
  function PackerInput(images: seq<ImageSize>, pageW: int, pageH: int): (sizes: seq<Size>)
    ensures |sizes| == |images|
    ensures multiset(SizeIds(sizes)) == multiset(Indices(|images|))
    ensures forall k :: 0 <= k < |sizes| ==>
              sizes[k].idx < |images| && sizes[k] == NormalizeSize(images[sizes[k].idx], sizes[k].idx, pageW, pageH)
    ensures HeightsNonIncreasing(sizes)
    ensures forall h :: WithHeight(sizes, h) == WithHeight(NormalizeAll(images, pageW, pageH), h)
  {
    var normalized := NormalizeAll(images, pageW, pageH);
    SortKeepsIds(normalized);
    assert SizeIds(normalized) == Indices(|images|);
    NormalizedEntries(images, pageW, pageH, SortByHeightDesc(normalized));
    SortByHeightDesc(normalized)
  }

  /** Any rearrangement of the normalised list holds, for each entry, the
      normalised size of the image whose index it carries. */
  lemma {:induction false} NormalizedEntries(images: seq<ImageSize>, pageW: int, pageH: int, s: seq<Size>)
    requires multiset(s) == multiset(NormalizeAll(images, pageW, pageH))
    ensures forall k :: 0 <= k < |s| ==>
              s[k].idx < |images| && s[k] == NormalizeSize(images[s[k].idx], s[k].idx, pageW, pageH)
  {
    var normalized := NormalizeAll(images, pageW, pageH);
    forall k | 0 <= k < |s|
      ensures s[k].idx < |images| && s[k] == NormalizeSize(images[s[k].idx], s[k].idx, pageW, pageH)
    {
      assert s[k] in multiset(normalized);
      var i :| 0 <= i < |normalized| && normalized[i] == s[k];
    }
  }

  /** The page placements `main` computes for images of the given sizes. */
  function PlanPages(images: seq<ImageSize>, pageW: int, pageH: int): (r: Result<seq<Page>>)
    requires |images| == 0 || ShelfPadding < pageH - ShelfPadding
    ensures |images| == 0 ==> r == Ok([])
    ensures r.Ok? ==> multiset(PlacementIds(Concat(r.value))) == multiset(Indices(|images|))
  {
    var sizes := PackerInput(images, pageW, pageH);
    PlacesEveryImageOnce(sizes, PageConfig(pageW, pageH));
    PackImagesShelf(sizes, PageConfig(pageW, pageH))
  }

  predicate AllPositive(images: seq<ImageSize>)
  {
    forall i :: 0 <= i < |images| ==> images[i].w > 0 && images[i].h > 0
  }

  /** Normalised positive images are what the packer is designed for: no
      size is negative, and one whose height rounds to zero is as wide as
      the page less the margin, too wide to fit beside the padding. */
  lemma {:induction false} NormalizedAdmissible(img: ImageSize, idx: nat, pageW: int, pageH: int)
    requires img.w > 0 && img.h > 0
    requires Margin < pageW && Margin < pageH
    ensures Admissible(NormalizeSize(img, idx, pageW, pageH), PageConfig(pageW, pageH))
  {
    NormalizeNonNegative(img, idx, pageW, pageH);
    NormalizeFlat(img, idx, pageW, pageH);
  }

  lemma {:induction false} PackerInputAdmissible(images: seq<ImageSize>, pageW: int, pageH: int)
    requires AllPositive(images)
    requires Margin < pageW && Margin < pageH
    ensures AllAdmissible(PackerInput(images, pageW, pageH), PageConfig(pageW, pageH))
  {
    var sorted := PackerInput(images, pageW, pageH);
    forall k | 0 <= k < |sorted|
      ensures Admissible(sorted[k], PageConfig(pageW, pageH))
    {
      NormalizedAdmissible(images[sorted[k].idx], sorted[k].idx, pageW, pageH);
    }
  }

  /** For positive images on a page wider and taller than twice the padding,
      `main` always obtains a layout: every image is placed once, inside the
      horizontal margins, at its normalised size or force-scaled to the usable
      width, and no two placements on a page overlap. */
  lemma {:induction false} PlanSucceeds(images: seq<ImageSize>, pageW: int, pageH: int)
    requires AllPositive(images)
    requires 2 * ShelfPadding < pageW && 2 * ShelfPadding < pageH
    ensures PlanPages(images, pageW, pageH).Ok?
    ensures var pages := PlanPages(images, pageW, pageH).value;
      var sizes := PackerInput(images, pageW, pageH);
      && |Concat(pages)| == |images|
      && (forall k :: 0 <= k < |images| ==>
            && Faithful(Concat(pages)[k], sizes[k], PageConfig(pageW, pageH))
            && ShelfPadding <= Concat(pages)[k].x
            && Concat(pages)[k].x + Concat(pages)[k].w + ShelfPadding <= pageW)
      && (forall j, a, b :: 0 <= j < |pages| && 0 <= a < |pages[j]| && 0 <= b < |pages[j]| && a != b ==>
            !Overlap(pages[j][a], pages[j][b]))
  {
    var cfg := PageConfig(pageW, pageH);
    var sizes := PackerInput(images, pageW, pageH);
    PackerInputAdmissible(images, pageW, pageH);
    PackOutcome(sizes, cfg);
    PlacementsFaithful(sizes, cfg);
    PagesDisjoint(sizes, cfg);
  }
}
