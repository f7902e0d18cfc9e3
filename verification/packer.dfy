/** `pack_images_shelf`: the greedy shelf packer. The source's loop cursor
    `{i, shelf_x, y, shelf_height}` becomes the parameters of pure functions:
    `rest` is the unplaced suffix `images_sizes[i..]`, `x` and `y` the
    cursor, and the shelf height is computed from the placed run. */
module ShelfPacker {
  import opened LayoutTypes
  import opened Rounding

  /** Width left for one image on a fresh shelf, `page_w_px - 2 * padding`. */
  function UsableWidth(cfg: Config): int
  {
    cfg.pageW - 2 * cfg.padding
  }

  /** The image passes the horizontal test on a fresh shelf, where
      `shelf_x == padding`. */
  predicate Fits(sz: Size, cfg: Config)
  {
    sz.w + cfg.padding + cfg.padding <= cfg.pageW
  }

  /** The horizontal cursor after a run of placements that started at `x`. */
  function EndX(items: seq<Placement>, x: int, cfg: Config): int
  {
    if |items| == 0 then x else items[|items| - 1].x + items[|items| - 1].w + cfg.padding
  }

  /** `items` is exactly what the gathering loop places from `rest` when it
      starts at `(x, y)`: the leading entries of `rest`, each keeping its size
      and index, laid left to right with one padding between neighbours, each
      ending at least one padding before the right page edge; and the loop
      stopped because `rest` ran out or its next entry did not fit. */
  predicate GreedyRun(items: seq<Placement>, rest: seq<Size>, x: int, y: int, cfg: Config)
  {
    && |items| <= |rest|
    && (forall k :: 0 <= k < |items| ==>
          items[k] == Placement(rest[k].idx, items[k].x, y, rest[k].w, rest[k].h))
    && (|items| > 0 ==> items[0].x == x)
    // Neighbours are named by two bound variables with `k == i + 1`, so that
    // the quantifier can trigger on `items[k]` and `items[i]` rather than on
    // the arithmetic index `items[k - 1]`.
    && (forall k, i :: 0 < k < |items| && 0 <= i < k && k == i + 1 ==>
          items[k].x == items[i].x + items[i].w + cfg.padding)
    && (forall k :: 0 <= k < |items| ==> items[k].x + items[k].w + cfg.padding <= cfg.pageW)
    && (|items| < |rest| ==> rest[|items|].w + EndX(items, x, cfg) + cfg.padding > cfg.pageW)
  }

  lemma {:induction false} GreedyRunCons(p: Placement, tail: seq<Placement>, rest: seq<Size>, x: int, y: int, cfg: Config)
    requires |rest| > 0 && rest[0].w + x + cfg.padding <= cfg.pageW
    requires p == Placement(rest[0].idx, x, y, rest[0].w, rest[0].h)
    requires GreedyRun(tail, rest[1..], x + rest[0].w + cfg.padding, y, cfg)
    ensures GreedyRun([p] + tail, rest, x, y, cfg)
  {
    var items := [p] + tail;
    assert EndX(items, x, cfg) == EndX(tail, x + rest[0].w + cfg.padding, cfg);
    forall k | 0 < k < |items|
      ensures items[k] == Placement(rest[k].idx, items[k].x, y, rest[k].w, rest[k].h)
    {
      assert items[k] == tail[k - 1] && rest[k] == rest[1..][k - 1];
    }
  }

  /** The gathering loop (lines 72-82): place the next image while it fits
      horizontally. */
  function Gather(rest: seq<Size>, x: int, y: int, cfg: Config): (items: seq<Placement>)
    ensures |items| <= |rest|
    decreases |rest|
  {
    if |rest| > 0 && rest[0].w + x + cfg.padding <= cfg.pageW then
      [Placement(rest[0].idx, x, y, rest[0].w, rest[0].h)] + Gather(rest[1..], x + rest[0].w + cfg.padding, y, cfg)
    else
      []
  }

  /** The gathering loop places exactly the greedy run. */
  lemma {:induction false} GatherRun(rest: seq<Size>, x: int, y: int, cfg: Config)
    ensures GreedyRun(Gather(rest, x, y, cfg), rest, x, y, cfg)
    decreases |rest|
  {
    if |rest| > 0 && rest[0].w + x + cfg.padding <= cfg.pageW {
      var x' := x + rest[0].w + cfg.padding;
      var p := Placement(rest[0].idx, x, y, rest[0].w, rest[0].h);
      GatherRun(rest[1..], x', y, cfg);
      GreedyRunCons(p, Gather(rest[1..], x', y, cfg), rest, x, y, cfg);
      assert Gather(rest, x, y, cfg) == [p] + Gather(rest[1..], x', y, cfg);
    } else {
      assert Gather(rest, x, y, cfg) == [];
      GreedyRunEmpty(rest, x, y, cfg);
    }
  }

  /** The gathering loop stops at once when the next image does not fit. */
  lemma {:induction false} GreedyRunEmpty(rest: seq<Size>, x: int, y: int, cfg: Config)
    requires |rest| > 0 ==> rest[0].w + x + cfg.padding > cfg.pageW
    ensures GreedyRun([], rest, x, y, cfg)
  {
    assert EndX([], x, cfg) == x;
  }

  /** `shelf_height` after the gathering loop: it starts at 0 and is raised to
      each placed height that exceeds it. */
  function Tallest(items: seq<Placement>): (t: int)
    ensures t >= 0
  {
    if |items| == 0 then 0
    else
      var t := Tallest(items[..|items| - 1]);
      if items[|items| - 1].h > t then items[|items| - 1].h else t
  }

  /** The shelf height is the largest placed height, or 0 when nothing
      placed is taller than 0. */
  lemma {:induction false} TallestBounds(items: seq<Placement>)
    ensures Tallest(items) >= 0
    ensures forall k :: 0 <= k < |items| ==> items[k].h <= Tallest(items)
    ensures Tallest(items) == 0 || exists k :: 0 <= k < |items| && items[k].h == Tallest(items)
    decreases |items|
  {
    if |items| > 0 {
      var init := items[..|items| - 1];
      TallestBounds(init);
      assert forall k :: 0 <= k < |init| ==> init[k] == items[k];
      if Tallest(init) != 0 && Tallest(items) == Tallest(init) {
        var k :| 0 <= k < |init| && init[k].h == Tallest(init);
        assert items[k].h == Tallest(items);
      }
    }
  }

  /** One shelf: the `y` it was opened at, the `shelf_height` it closed with,
      and its placements in order. */
  datatype Shelf = Shelf(top: int, height: int, items: seq<Placement>)

  /** The force-scaled placement of the fallback branch: at `(padding, top)`,
      exactly the usable width wide, the height scaled by the same factor. */
  predicate FallbackPlacement(p: Placement, sz: Size, top: int, cfg: Config)
  {
    && UsableWidth(cfg) > 0
    && sz.w != 0
    && p == Placement(sz.idx, cfg.padding, top, UsableWidth(cfg), RoundRatio(sz.h * UsableWidth(cfg), sz.w))
  }

  /** A shelf closed by the gathering loop alone, with a non-zero height. */
  predicate GreedyShelf(sh: Shelf, rest: seq<Size>, cfg: Config)
  {
    && GreedyRun(sh.items, rest, cfg.padding, sh.top, cfg)
    && sh.height == Tallest(sh.items)
    && sh.height != 0
  }

  /** A shelf closed by the fallback branch: the gathering loop left the
      height at 0, and the next image is then force-scaled onto the shelf,
      whose height becomes that image's scaled height. */
  predicate FallbackShelf(sh: Shelf, rest: seq<Size>, cfg: Config)
  {
    && |sh.items| > 0
    && var m := |sh.items| - 1;
       && m < |rest|
       && GreedyRun(sh.items[..m], rest, cfg.padding, sh.top, cfg)
       && Tallest(sh.items[..m]) == 0
       && FallbackPlacement(sh.items[m], rest[m], sh.top, cfg)
       && sh.height == sh.items[m].h
  }

  /** One iteration of the shelf loop (lines 69-95) opened at height `y`. */
  function PackShelf(rest: seq<Size>, y: int, cfg: Config): (r: Result<Shelf>)
    ensures r.Ok? ==> r.value.top == y && 1 <= |r.value.items| <= |rest|
  {
    var items := Gather(rest, cfg.padding, y, cfg);
    var height := Tallest(items);
    if height != 0 then
      Ok(Shelf(y, height, items))
    else if |items| == |rest| then
      Err(IndexOutOfRange)
    else
      var next := rest[|items|];
      var maxW := UsableWidth(cfg);
      if maxW <= 0 then Err(PageTooNarrow)
      else if next.w == 0 then Err(DivisionByZero)
      else
        var fallback := Placement(next.idx, cfg.padding, y, maxW, RoundRatio(next.h * maxW, next.w));
        Ok(Shelf(y, fallback.h, items + [fallback]))
  }

  /** A shelf is either a greedy run with a non-zero height or a zero-height
      run followed by one force-scaled image; each error names its cause: a
      page too narrow, a zero-height shelf that used up every image, or a
      zero image width to divide by. */
  lemma {:induction false} PackShelfSpec(rest: seq<Size>, y: int, cfg: Config)
    ensures var r := PackShelf(rest, y, cfg);
      && (r.Ok? ==> GreedyShelf(r.value, rest, cfg) || FallbackShelf(r.value, rest, cfg))
      && (r == Err(PageTooNarrow) ==> UsableWidth(cfg) <= 0)
      && (r == Err(IndexOutOfRange) ==> forall k :: 0 <= k < |rest| ==> rest[k].h <= 0)
      && (r == Err(DivisionByZero) ==> exists m :: 0 <= m < |rest| && rest[m].w == 0)
  {
    var items := Gather(rest, cfg.padding, y, cfg);
    GatherRun(rest, cfg.padding, y, cfg);
    TallestBounds(items);
    var r := PackShelf(rest, y, cfg);
    if r.Ok? && Tallest(items) == 0 {
      var m := |items|;
      assert r.value.items[..m] == items;
    }
  }

  /** All placements of a page's shelves, shelf after shelf. */
  function Flatten(shelves: seq<Shelf>): seq<Placement>
  {
    if |shelves| == 0 then [] else shelves[0].items + Flatten(shelves[1..])
  }

  /** The vertical cursor after the page's shelves, starting from `y`. */
  function NextTop(shelves: seq<Shelf>, y: int, cfg: Config): int
  {
    if |shelves| == 0 then y
    else shelves[|shelves| - 1].top + shelves[|shelves| - 1].height + cfg.padding
  }

  /** The shelves of a page opened at `y` are stacked: the first opens at
      `y`, each next one opens one padding below the previous shelf's height,
      and every shelf opens above `page_h_px - padding`. */
  predicate Stacked(shelves: seq<Shelf>, y: int, cfg: Config)
  {
    && (|shelves| > 0 ==> shelves[0].top == y)
    // As in `GreedyRun`, `j == i + 1` names the neighbour so that the
    // quantifier triggers on `shelves[j]` and `shelves[i]`.
    && (forall j, i :: 0 < j < |shelves| && 0 <= i < j && j == i + 1 ==>
          shelves[j].top == shelves[i].top + shelves[i].height + cfg.padding)
    && (forall j :: 0 <= j < |shelves| ==> shelves[j].top < cfg.pageH - cfg.padding)
  }

  /** Each shelf is what one shelf iteration produces from the images the
      earlier shelves left. */
  predicate ShelvesFrom(shelves: seq<Shelf>, rest: seq<Size>, cfg: Config)
  {
    |shelves| > 0 ==>
      && |shelves[0].items| <= |rest|
      && (GreedyShelf(shelves[0], rest, cfg) || FallbackShelf(shelves[0], rest, cfg))
      && ShelvesFrom(shelves[1..], rest[|shelves[0].items|..], cfg)
  }

  /** Some shelf, opened on a suffix of `rest` at some height, raises `e`. */
  ghost predicate ShelfFails(rest: seq<Size>, e: PackError, cfg: Config)
  {
    exists k, y :: 0 <= k < |rest| && PackShelf(rest[k..], y, cfg) == Err(e)
  }

  lemma {:induction false} ShelfFailsShift(rest: seq<Size>, n: nat, e: PackError, cfg: Config)
    requires n <= |rest|
    requires ShelfFails(rest[n..], e, cfg)
    ensures ShelfFails(rest, e, cfg)
  {
    var k, y :| 0 <= k < |rest[n..]| && PackShelf(rest[n..][k..], y, cfg) == Err(e);
    assert rest[n..][k..] == rest[n + k..];
  }

  /** Prepending the shelf opened at `y` to the rest of the page keeps each
      property the page loop promises. */
  lemma {:induction false} PageCons(shelf: Shelf, more: seq<Shelf>, rest: seq<Size>, y: int, cfg: Config)
    requires y < cfg.pageH - cfg.padding
    requires shelf.top == y && 1 <= |shelf.items| <= |rest|
    requires GreedyShelf(shelf, rest, cfg) || FallbackShelf(shelf, rest, cfg)
    requires IdsTrack(Flatten(more), rest[|shelf.items|..])
    requires ShelvesFrom(more, rest[|shelf.items|..], cfg)
    requires Stacked(more, y + shelf.height + cfg.padding, cfg)
    requires |Flatten(more)| < |rest[|shelf.items|..]| ==>
               NextTop(more, y + shelf.height + cfg.padding, cfg) >= cfg.pageH - cfg.padding
    ensures IdsTrack(Flatten([shelf] + more), rest)
    ensures ShelvesFrom([shelf] + more, rest, cfg)
    ensures Stacked([shelf] + more, y, cfg)
    ensures |Flatten([shelf] + more)| > 0
    ensures |Flatten([shelf] + more)| < |rest| ==> NextTop([shelf] + more, y, cfg) >= cfg.pageH - cfg.padding
  {
    var page := [shelf] + more;
    assert page[1..] == more;
    assert Flatten(page) == shelf.items + Flatten(more);
    assert IdsTrack(shelf.items, rest) by {
      if GreedyShelf(shelf, rest, cfg) {
      } else {
        var m := |shelf.items| - 1;
        assert forall k :: 0 <= k < m ==> shelf.items[k] == shelf.items[..m][k];
      }
    }
    IdsTrackAppend(shelf.items, Flatten(more), rest);
    assert NextTop(page, y, cfg) == NextTop(more, y + shelf.height + cfg.padding, cfg);
  }

  /** The shelf loop of one page (lines 67-99), opened at height `y`. */
  function PackPage(rest: seq<Size>, y: int, cfg: Config): (r: Result<seq<Shelf>>)
    ensures r.Ok? ==> |Flatten(r.value)| <= |rest|
    ensures r.Ok? && |rest| > 0 && y < cfg.pageH - cfg.padding ==> |Flatten(r.value)| > 0
    decreases |rest|
  {
    if y < cfg.pageH - cfg.padding && |rest| > 0 then
      match PackShelf(rest, y, cfg)
      case Err(e) => Err(e)
      case Ok(shelf) =>
        var n := |shelf.items|;
        match PackPage(rest[n..], y + shelf.height + cfg.padding, cfg)
        case Err(e) => Err(e)
        case Ok(more) =>
          FlattenCons(shelf, more);
          Ok([shelf] + more)
    else
      Ok([])
  }

  lemma {:induction false} FlattenCons(shelf: Shelf, more: seq<Shelf>)
    ensures Flatten([shelf] + more) == shelf.items + Flatten(more)
  {
    assert ([shelf] + more)[1..] == more;
  }

  /** The page loop places, in order, the leading images of `rest` as stacked
      shelves, each what one shelf iteration makes of the images before it
      left; it stops early only once the next shelf would open at or below
      `page_h_px - padding`; and an error is raised by one of its shelves. */
  lemma {:induction false} PackPageSpec(rest: seq<Size>, y: int, cfg: Config)
    ensures var r := PackPage(rest, y, cfg);
      && (r.Ok? ==> IdsTrack(Flatten(r.value), rest))
      && (r.Ok? ==> ShelvesFrom(r.value, rest, cfg))
      && (r.Ok? ==> Stacked(r.value, y, cfg))
      && (r.Ok? && |Flatten(r.value)| < |rest| ==> NextTop(r.value, y, cfg) >= cfg.pageH - cfg.padding)
      && (r.Err? ==> ShelfFails(rest, r.error, cfg))
    decreases |rest|
  {
    if y < cfg.pageH - cfg.padding && |rest| > 0 {
      var s := PackShelf(rest, y, cfg);
      PackShelfSpec(rest, y, cfg);
      if s.Err? {
        assert rest[0..] == rest;
      } else {
        var shelf := s.value;
        var n := |shelf.items|;
        var y' := y + shelf.height + cfg.padding;
        PackPageSpec(rest[n..], y', cfg);
        var t := PackPage(rest[n..], y', cfg);
        if t.Err? {
          ShelfFailsShift(rest, n, t.error, cfg);
        } else {
          PageCons(shelf, t.value, rest, y, cfg);
        }
      }
    }
  }

  /** The placements of each page. */
  function Pages(layout: seq<seq<Shelf>>): (pages: seq<Page>)
    ensures |pages| == |layout|
    ensures forall j :: 0 <= j < |layout| ==> pages[j] == Flatten(layout[j])
  {
    seq(|layout|, j requires 0 <= j < |layout| => Flatten(layout[j]))
  }

  /** Each page's shelves are what the shelf loop produces from the images
      the earlier pages left. */
  predicate LayoutFrom(layout: seq<seq<Shelf>>, rest: seq<Size>, cfg: Config)
  {
    |layout| > 0 ==>
      && |Flatten(layout[0])| <= |rest|
      && ShelvesFrom(layout[0], rest, cfg)
      && LayoutFrom(layout[1..], rest[|Flatten(layout[0])|..], cfg)
  }

  /** Prepending a page to the pages packed from what it left keeps each
      property the page loop promises. */
  lemma {:induction false} LayoutCons(page: seq<Shelf>, more: seq<seq<Shelf>>, rest: seq<Size>, cfg: Config)
    requires IdsTrack(Flatten(page), rest) && |Flatten(page)| > 0
    requires ShelvesFrom(page, rest, cfg)
    requires LayoutFrom(more, rest[|Flatten(page)|..], cfg)
    requires Stacked(page, cfg.padding, cfg)
    requires |Flatten(page)| < |rest| ==> NextTop(page, cfg.padding, cfg) >= cfg.pageH - cfg.padding
    requires IdsTrack(Concat(Pages(more)), rest[|Flatten(page)|..])
    requires |Concat(Pages(more))| == |rest[|Flatten(page)|..]|
    requires forall j :: 0 <= j < |more| ==> |Flatten(more[j])| > 0
    requires forall j :: 0 <= j < |more| ==> Stacked(more[j], cfg.padding, cfg)
    requires forall j :: 0 <= j < |more| - 1 ==> NextTop(more[j], cfg.padding, cfg) >= cfg.pageH - cfg.padding
    ensures IdsTrack(Concat(Pages([page] + more)), rest)
    ensures LayoutFrom([page] + more, rest, cfg)
    ensures |Concat(Pages([page] + more))| == |rest|
    ensures forall j :: 0 <= j < |more| + 1 ==> |Flatten(([page] + more)[j])| > 0
    ensures forall j :: 0 <= j < |more| + 1 ==> Stacked(([page] + more)[j], cfg.padding, cfg)
    ensures forall j :: 0 <= j < |more| ==>
              NextTop(([page] + more)[j], cfg.padding, cfg) >= cfg.pageH - cfg.padding
  {
    ConcatPagesCons(page, more);
    IdsTrackAppend(Flatten(page), Concat(Pages(more)), rest);
    var layout := [page] + more;
    assert layout[1..] == more;
    forall j | 0 < j < |more| + 1
      ensures layout[j] == more[j - 1]
    {
    }
  }

  lemma {:induction false} ConcatPagesCons(page: seq<Shelf>, more: seq<seq<Shelf>>)
    ensures Concat(Pages([page] + more)) == Flatten(page) + Concat(Pages(more))
  {
    var layout := [page] + more;
    assert Pages(layout)[1..] == Pages(more);
  }

  /** The page loop (lines 62-101): pages are opened at `y == padding` until
      every image is placed. Without `padding < page_h_px - padding` the
      source loops forever on a non-empty input, opening empty pages. */
  function PackPages(rest: seq<Size>, cfg: Config): (r: Result<seq<seq<Shelf>>>)
    requires |rest| == 0 || cfg.padding < cfg.pageH - cfg.padding
    ensures r.Ok? ==> |Concat(Pages(r.value))| == |rest|
    ensures r.Ok? ==> (|r.value| == 0 <==> |rest| == 0)
    decreases |rest|
  {
    if |rest| == 0 then Ok([])
    else
      match PackPage(rest, cfg.padding, cfg)
      case Err(e) => Err(e)
      case Ok(page) =>
        var n := |Flatten(page)|;
        match PackPages(rest[n..], cfg)
        case Err(e) => Err(e)
        case Ok(more) =>
          ConcatPagesCons(page, more);
          Ok([page] + more)
  }

  /** The page loop places every image exactly once and in input order; each
      page is non-empty, its shelves stacked from `y == padding`; every page
      but the last is full, its next shelf opening at or below
      `page_h_px - padding`; and an error is raised by one of the shelves. */
  lemma {:induction false} PackPagesSpec(rest: seq<Size>, cfg: Config)
    requires |rest| == 0 || cfg.padding < cfg.pageH - cfg.padding
    ensures var r := PackPages(rest, cfg);
      && (r.Ok? ==> IdsTrack(Concat(Pages(r.value)), rest) && |Concat(Pages(r.value))| == |rest|)
      && (r.Ok? ==> LayoutFrom(r.value, rest, cfg))
      && (r.Ok? ==> forall j :: 0 <= j < |r.value| ==> |Flatten(r.value[j])| > 0)
      && (r.Ok? ==> forall j :: 0 <= j < |r.value| ==> Stacked(r.value[j], cfg.padding, cfg))
      && (r.Ok? ==> forall j :: 0 <= j < |r.value| - 1 ==>
                      NextTop(r.value[j], cfg.padding, cfg) >= cfg.pageH - cfg.padding)
      && (r.Err? ==> ShelfFails(rest, r.error, cfg))
    decreases |rest|
  {
    if |rest| > 0 {
      var p := PackPage(rest, cfg.padding, cfg);
      PackPageSpec(rest, cfg.padding, cfg);
      if p.Ok? {
        var n := |Flatten(p.value)|;
        PackPagesSpec(rest[n..], cfg);
        var t := PackPages(rest[n..], cfg);
        if t.Err? {
          ShelfFailsShift(rest, n, t.error, cfg);
        } else {
          LayoutCons(p.value, t.value, rest, cfg);
        }
      }
    }
  }

  /** The packer's entry point (line 52): the placements of each page for
      the given sizes, page size and padding. */
  function PackImagesShelf(sizes: seq<Size>, cfg: Config): (r: Result<seq<Page>>)
    requires |sizes| == 0 || cfg.padding < cfg.pageH - cfg.padding
    ensures |sizes| == 0 ==> r == Ok([])
  {
    match PackPages(sizes, cfg)
    case Err(e) => Err(e)
    case Ok(layout) => Ok(Pages(layout))
  }

  /** Every image is placed exactly once, in input order, and no page is
      empty. */
  lemma {:induction false} PlacesEveryImageOnce(sizes: seq<Size>, cfg: Config)
    requires |sizes| == 0 || cfg.padding < cfg.pageH - cfg.padding
    ensures var r := PackImagesShelf(sizes, cfg);
      && (r.Ok? ==> PlacementIds(Concat(r.value)) == SizeIds(sizes))
      && (r.Ok? ==> forall j :: 0 <= j < |r.value| ==> |r.value[j]| > 0)
  {
    PackPagesSpec(sizes, cfg);
  }
}
