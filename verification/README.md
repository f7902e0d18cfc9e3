# Shelf packing of images onto pages

A Dafny model of how the image-to-PDF tool in `task_1_starter_code.py` lays
images out on pages. Only the layout decisions are modelled:

1. **Size normalisation** (`main`, lines 146-155). Every opened image is shrunk,
   keeping its aspect ratio, to at most `page - 16` pixels in each dimension.
   Each dimension is then rounded with Python's `round`.
2. **Ordering** (line 158). The sizes are sorted by height, tallest first. The
   sort is stable: images of equal height keep their input order.
3. **Shelf packing** (`pack_images_shelf`, lines 52-101, called with
   `padding=12` at line 161):
   - Images go left to right onto a shelf while
     `w + shelf_x + padding <= page_w_px`.
   - The shelf is as tall as its tallest image.
   - A new shelf opens `shelf_height + padding` lower.
   - A new page starts once the cursor reaches `page_h_px - padding`.
   - If a shelf closes with height 0, the next image is force-scaled to the
     usable width `page_w_px - 2 * padding`.

Modules:

- `LayoutTypes` (`types.dfy`): sizes `(w, h, idx)`, placements
  `(idx, x, y, w, h)`, pages, the packer's configuration, and the three
  exceptions the packer can raise as a `Result`:
  - `RuntimeError` at line 89;
  - `IndexError` at line 86;
  - `ZeroDivisionError` at line 90.
- `Rounding` (`rounding.dfy`): Python's `round` applied to an exact quotient,
  rounding half to even.
- `ShelfPacker` (`packer.dfy`): the packer as three nested recursions. Each one
  corresponds to a loop of the source:
  - `PackShelf` is one iteration of the shelf loop;
  - `PackPage` is the shelf loop at line 68;
  - `PackPages` is the page loop at line 65.

  The cursor `i` is the remaining suffix `rest` of the input. The
  computational functions carry only the facts the recursion needs. What they
  compute is stated in the `...Spec` lemmas beside them.
- `ShelfGeometry` (`packer_geometry.dfy`): what the layout guarantees for the
  inputs the packer is designed for:
  - every image is placed once, in order, at its own size or force-scaled;
  - placements stay inside the horizontal margins;
  - no two placements on a page overlap;
  - the exact condition under which packing raises.
- `HeightOrder` (`ordering.dfy`): the stable descending sort, and a proof that
  it is the only stable ordering.
- `SizeNormalizer` (`normalize.dfy`): the scale factor and the rounded sizes.
  The factor is kept as an exact rational.
- `Pipeline` (`pipeline.dfy`): normalise, then sort, then pack, as `main` does.
  It proves that positive images on a page larger than twice the padding
  always get a layout.
- `PackerScenarios` (`scenarios.dfy`): worked layouts and error cases.

What the code does on a few inputs worth spelling out:

- Three 100 x 100 images on a 300 x 300 page with padding 10 need two shelves.
  The third image would end at `230 + 100 + 10 = 340 > 300`.
  See `PackerScenarios.ThreeSquares`.
- Five 250 x 50 images on the same page fit on one page, on five shelves. The
  fifth shelf opens at `y = 250 < 290`. See `PackerScenarios.FiveBars`.
- Vertical containment does not hold: a shelf may extend below
  `page_h_px - padding`, since only its top is tested.
- A normalised height or width can round to 0, so the packer can receive a
  size that is not positive (`PackerScenarios.HairlineImage`).

## Model

| member | source | states |
|---|---|---|
| `ShelfPacker.GatherRun` | task_1_starter_code.py:72-82 | The gathering loop places a maximal greedy run: the leading images in order, at `y`, each at its own size, each starting one padding after the previous one ends. It stops at the first image that would end past `page_w_px - padding`. |
| `ShelfPacker.Gather` | task_1_starter_code.py:72-82 | The gathering loop never places more images than remain. `ShelfPacker.GatherRun` states what it places. |
| `ShelfPacker.Tallest` | task_1_starter_code.py:70-78 | The shelf height is never negative. `ShelfPacker.TallestBounds` states that it is the largest placed height. |
| `ShelfPacker.TallestBounds` | task_1_starter_code.py:70-78 | The shelf height is non-negative, at least every placed height, and either 0 or the height of some placed image. |
| `ShelfPacker.PackShelf` | task_1_starter_code.py:69-95 | A shelf that closes without error opens at `y` and places at least one and at most the remaining images. So every iteration makes progress. |
| `ShelfPacker.PackShelfSpec` | task_1_starter_code.py:69-95 | A shelf is either a greedy run of non-zero height, or a zero-height run followed by the next image force-scaled to the usable width at the left margin with height `round(h * max_w / w)`. Each error has its cause: page-too-narrow only when `page_w_px - 2*padding <= 0`; an index past the end only when no remaining image is taller than 0; division by zero only when some image has width 0. |
| `ShelfPacker.PackPage` | task_1_starter_code.py:66-99 | A page never places more images than remain. A page started above `page_h_px - padding` with images left places at least one. |
| `ShelfPacker.PackPageSpec` | task_1_starter_code.py:66-99 | The page places the leading images in input order, as shelves stacked `shelf_height + padding` apart. Each shelf is what one shelf iteration makes of the images left. The page stops early only when the next shelf would open at or below `page_h_px - padding`. Any error is raised by one of its shelves. |
| `ShelfPacker.PackPages` | task_1_starter_code.py:62-101 | A layout places as many images as were given, and has no pages exactly when there were no images. `ShelfPacker.PackPagesSpec` states the order and the page structure. |
| `ShelfPacker.PackImagesShelf` | task_1_starter_code.py:62-65 | No images give no pages. |
| `ShelfPacker.PackPagesSpec` | task_1_starter_code.py:62-101 | The pages place every image exactly once, in input order. Every page is non-empty, and its shelves are stacked from `y = padding`. Every page but the last is full. Any error is raised by one of the shelves. |
| `ShelfPacker.PlacesEveryImageOnce` | task_1_starter_code.py:52-101 | Reading the pages in order gives the indices of the input in order. Every page holds at least one placement. |
| `ShelfGeometry.ShelfFacts` | task_1_starter_code.py:69-95 | For admissible sizes, a shelf is a greedy run exactly when its first image fits on a fresh shelf; otherwise it holds that image alone, force-scaled. The shelf places its images faithfully. It is well shaped: starts at the left margin, one padding between neighbours, all at the shelf's `y`, as tall as its tallest image. |
| `ShelfGeometry.GreedyShelfFacts` | task_1_starter_code.py:72-82 | A shelf closed by the gathering loop starts with an image that fits. It keeps every image at its own size inside the horizontal margins and is well shaped. |
| `ShelfGeometry.FallbackShelfFacts` | task_1_starter_code.py:83-95 | A force-scaled shelf holds exactly one image, the one that did not fit, and is well shaped. |
| `ShelfGeometry.FallbackFaithful` | task_1_starter_code.py:87-93 | The force-scaled image is exactly the usable width wide. It is no taller than the original. It keeps the original aspect ratio to within half a pixel of height. |
| `ShelfGeometry.PageSeparated` | task_1_starter_code.py:68-96 | On a page, each placement lies at least one padding to the right of, or below, every earlier placement. |
| `ShelfGeometry.PlacementsFaithful` | task_1_starter_code.py:52-101 | For admissible sizes, the k-th placement, reading pages in order, is the k-th input image. It is kept at its size inside the horizontal margins when it fits on a fresh shelf, and force-scaled otherwise. |
| `ShelfGeometry.PlacementTops` | task_1_starter_code.py:66-99 | For admissible sizes, every placement's top edge lies at least `padding` below the page top and above `page_h_px - padding`. Its bottom edge is not bounded. |
| `ShelfGeometry.PagesDisjoint` | task_1_starter_code.py:66-99 | No two placements on one page overlap. Each is separated by at least one padding from every placement before it. |
| `ShelfGeometry.ShelfOutcome` | task_1_starter_code.py:83-89 | For admissible sizes, a shelf fails exactly when its first image does not fit and `page_w_px - 2*padding <= 0`. The failure is then the page-too-narrow error. |
| `ShelfGeometry.PackOutcome` | task_1_starter_code.py:83-89 | For admissible sizes, packing raises exactly when some image does not fit on a fresh shelf and the usable width is not positive. It then raises page-too-narrow. |
| `HeightOrder.InsertByHeight` | task_1_starter_code.py:158 | One insertion step of the sort adds exactly the new entry: the result holds the old entries and the new one, each as often as before. |
| `HeightOrder.InsertSorted` | task_1_starter_code.py:158 | Inserting an entry before the first entry no taller than it keeps a sequence ordered tallest first. |
| `HeightOrder.InsertKeepsHeights` | task_1_starter_code.py:158 | Insertion puts the new entry before every entry of its own height and keeps every height's entries in order. |
| `HeightOrder.SortByHeightDesc` | task_1_starter_code.py:158 | The sort permutes its input and orders it tallest first. The entries of each height keep their input order. |
| `HeightOrder.StableSortUnique` | task_1_starter_code.py:158 | Any tallest-first arrangement that keeps each height's entries in input order is the sort's result. So the sort is the stable one. |
| `HeightOrder.SortKeepsIds` | task_1_starter_code.py:158 | Sorting keeps each original index exactly as often as before. |
| `Rounding.RoundDiv` | task_1_starter_code.py:153-154 | `round(p / q)` for `q > 0` is an integer within half of the quotient, and even on a tie. |
| `Rounding.RoundRatio` | task_1_starter_code.py:90-92 | The same for any non-zero denominator. |
| `SizeNormalizer.MinRatio` | task_1_starter_code.py:152 | Python's `min`: one of its arguments, no greater than either, and the first one when it is not greater than the second. |
| `SizeNormalizer.ScaleFor` | task_1_starter_code.py:150-152 | The scale is 1, `max_w / w` or `max_h / h`, and no greater than any of them. It is exactly 1 when each positive dimension already fits within `page - 16`. |
| `SizeNormalizer.NormalizeSize` | task_1_starter_code.py:148-155 | A normalised size carries the index of its image. `SizeNormalizer.NormalizeBounds`, `SizeNormalizer.NormalizeUnchanged` and `SizeNormalizer.NormalizeAspect` state its dimensions. |
| `SizeNormalizer.NormalizeAll` | task_1_starter_code.py:146-155 | `sizes` has one entry per image, in image order, and entry `i` is image `i` normalised and tagged with `i`. |
| `SizeNormalizer.NormalizeBounds` | task_1_starter_code.py:146-155 | Normalisation never enlarges. A positive dimension ends at most `page - 16`. A zero dimension stays zero. |
| `SizeNormalizer.NormalizeUnchanged` | task_1_starter_code.py:149-154 | An image keeps its size exactly when each positive dimension is already within `page - 16`. |
| `SizeNormalizer.NormalizeAspect` | task_1_starter_code.py:152-154 | The aspect ratio survives rounding: `abs(w2 * h - h2 * w) <= (w + h) / 2`. |
| `SizeNormalizer.NormalizeFlat` | task_1_starter_code.py:150-154 | For a positive image on a page wider and taller than 16 pixels, a normalised height of 0 occurs only when the width is scaled to exactly `page_w - 16`. |
| `Pipeline.PackerInput` | task_1_starter_code.py:146-158 | The packer receives one size per image, carrying each image index exactly once. The entry carrying index `i` is image `i`'s normalised size. The list is ordered tallest first, and images of equal height keep their original order. |
| `Pipeline.PlanPages` | task_1_starter_code.py:146-161 | No images give no pages. Any layout places each image index exactly once. |
| `Pipeline.NormalizedAdmissible` | task_1_starter_code.py:146-155 | On a page wider and taller than 16 pixels, a normalised positive image is what the packer is designed for. It is not negative, and if its height rounds to 0 it is too wide to fit beside the 12-pixel padding. |
| `Pipeline.PlanSucceeds` | task_1_starter_code.py:146-161 | For positive images on a page wider and taller than 24 pixels, `main` always gets a layout. Each image is placed once, inside the horizontal margins, at its normalised size or force-scaled. Placements on a page do not overlap. |
| `Pipeline.NormalizedEntries` | task_1_starter_code.py:146-158 | However the normalised list is reordered, each entry is the normalised size of the image whose index it carries. |
| `PackerScenarios.ThreeSquares` | task_1_starter_code.py:68-96 | Three 100 x 100 images on a 300 x 300 page with padding 10 take two shelves on one page. |
| `PackerScenarios.WideImage` | task_1_starter_code.py:83-95 | A 1000 x 50 image on a 300 x 300 page with padding 10 is placed at `(10, 10)` with size 280 x 14. |
| `PackerScenarios.FiveBars` | task_1_starter_code.py:96-99 | Five 250 x 50 images on a 300 x 300 page with padding 10 take five shelves, all on one page. |
| `PackerScenarios.FlatImageAtEnd` | task_1_starter_code.py:83-86 | A last image of height 0 that fits leaves the shelf at height 0. The lookup past the end then raises. |
| `PackerScenarios.ZeroWidthAfterFlatShelf` | task_1_starter_code.py:86-90 | A zero-height shelf followed by an image of width 0 that does not fit divides by zero. |
| `PackerScenarios.PageTooNarrowRaises` | task_1_starter_code.py:87-89 | On a page no wider than twice the padding, an image that does not fit raises page-too-narrow. |
| `PackerScenarios.HairlineImage` | task_1_starter_code.py:150-154 | A 10000 x 1 image on a 116 x 116 page normalises to 100 x 0. |

## Left out

- Reading the images, cropping transparent borders, and opening files
  (`list_images`, `crop_transparent`, `open_and_preprocess`) are I/O. The model
  takes the images' pixel sizes as input.
- `compose_pages` and writing the PDF rasterise pixels and make no layout
  decision.
- The page-size table, the DPI conversion (lines 132-135) and argument parsing:
  the page size in pixels is a parameter.
- `sample_data_generation.py` is not part of this model.
- Floating point. Scale factors are exact rationals and `round` is applied to
  the exact quotient. The force-scaled width `round(w * (max_w / w))` is taken
  to be exactly `max_w`. A float rounding error that moves a value across a
  half-integer is not modelled.
- Sizes are unbounded integers. Python's integers do not overflow either.
- `ShelfPacker.PackPages`: requires `padding < page_h_px - padding` when images
  remain, because otherwise the page loop at line 65 never places an image and
  never terminates.
- `ShelfPacker.PackImagesShelf`: carries the same requirement, for the same
  reason.
- `Pipeline.PlanPages`: requires `12 < page_h_px - 12` when there are images,
  for the same reason; `main` always packs with a padding of 12.
- The default padding of 8 in the packer's signature (line 52) is not
  modelled. The padding is always passed explicitly, and `main` passes 12.
- With no images, `main` prints a message and returns early (lines 127-129)
  without packing. That early return is not modelled: `Pipeline.PlanPages`
  returns an empty layout instead.
- The geometric guarantees (`ShelfGeometry`) assume a padding of at least 0
  and admissible sizes:
  - no size is negative;
  - an image that fits on a fresh shelf is at least 1 pixel tall.

  Without the second condition, a zero-height shelf is force-scaled, or raises
  `IndexError` past the end. `Pipeline.NormalizedAdmissible` shows that
  normalised positive images meet both conditions on a page wider and taller
  than the 16-pixel margin; `main` pads with 12 pixels. The raw packer is
  modelled on all integers, error paths included.
- The page break test at line 97 is the same as the shelf loop's guard at
  line 68, so it is not modelled separately.
