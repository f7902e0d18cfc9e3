/** What the shelf packer guarantees about the rectangles it produces, for the
    inputs its design is meant for. */
module ShelfGeometry {
  import opened LayoutTypes
  import opened Rounding
  import opened ShelfPacker

  /** A size the packer handles as designed: non-negative, and at least one
      pixel tall whenever it fits on a fresh shelf, so that the zero-height
      test closing a shelf (line 83) means that nothing was placed on it. */
  predicate Admissible(sz: Size, cfg: Config)
  {
    0 <= sz.w && 0 <= sz.h && (Fits(sz, cfg) ==> 1 <= sz.h)
  }

  predicate AllAdmissible(s: seq<Size>, cfg: Config)
  {
    forall k :: 0 <= k < |s| ==> Admissible(s[k], cfg)
  }

  /** Placed at its own size, inside the left and right margins. */
  predicate Kept(p: Placement, sz: Size, cfg: Config)
  {
    && p.idx == sz.idx && p.w == sz.w && p.h == sz.h
    && cfg.padding <= p.x && p.x + p.w + cfg.padding <= cfg.pageW
  }

  /** Force-scaled: at the left margin, exactly the usable width wide, no
      taller than the original, and with the original's aspect ratio up to
      half a pixel of height. */
  predicate ForcedFit(p: Placement, sz: Size, cfg: Config)
  {
    && UsableWidth(cfg) > 0
    && p.idx == sz.idx && p.x == cfg.padding && p.w == UsableWidth(cfg)
    && 0 <= p.h <= sz.h
    && -sz.w <= 2 * (p.h * sz.w - sz.h * p.w) <= sz.w
  }

  /** How an image ends up on its page: kept when it fits on a fresh shelf,
      force-scaled when it does not. */
  predicate Faithful(p: Placement, sz: Size, cfg: Config)
  {
    && (Fits(sz, cfg) ==> Kept(p, sz, cfg))
    && (!Fits(sz, cfg) ==> ForcedFit(p, sz, cfg))
  }

  /** `ps` places the leading entries of `rest`, each faithfully. */
  predicate Tracks(ps: seq<Placement>, rest: seq<Size>, cfg: Config)
  {
    && |ps| <= |rest|
    && forall k :: 0 <= k < |ps| ==> Faithful(ps[k], rest[k], cfg)
  }

  /** A shelf's shape: placements left to right from the left margin with one
      padding between neighbours, all at the shelf's `y`, none taller than the
      shelf, whose height is that of its tallest member. */
  predicate WellShaped(sh: Shelf, cfg: Config)
  {
    && |sh.items| > 0
    && sh.items[0].x == cfg.padding
    // Neighbours are written `k == i + 1` for the trigger, as in `GreedyRun`.
    && (forall k, i :: 0 < k < |sh.items| && 0 <= i < k && k == i + 1 ==>
          sh.items[k].x == sh.items[i].x + sh.items[i].w + cfg.padding)
    && (forall k :: 0 <= k < |sh.items| ==>
          sh.items[k].y == sh.top && 0 <= sh.items[k].w && 0 <= sh.items[k].h <= sh.height)
    && (exists k :: 0 <= k < |sh.items| && sh.items[k].h == sh.height)
  }

  /** `b` lies at least one padding to the right of `a`, or below it. */
  predicate Separated(a: Placement, b: Placement, pad: int)
  {
    a.x + a.w + pad <= b.x || a.y + a.h + pad <= b.y
  }

  lemma {:induction false} TracksAppend(a: seq<Placement>, b: seq<Placement>, rest: seq<Size>, cfg: Config)
    requires Tracks(a, rest, cfg)
    requires Tracks(b, rest[|a|..], cfg)
    ensures Tracks(a + b, rest, cfg)
  {
    forall k | 0 <= k < |a + b|
      ensures Faithful((a + b)[k], rest[k], cfg)
    {
      if k >= |a| {
        assert (a + b)[k] == b[k - |a|];
        assert rest[|a|..][k - |a|] == rest[k];
      }
    }
  }

  lemma {:induction false} SuffixAdmissible(rest: seq<Size>, n: nat, cfg: Config)
    requires n <= |rest|
    requires AllAdmissible(rest, cfg)
    ensures AllAdmissible(rest[n..], cfg)
  {
    forall k | 0 <= k < |rest| - n
      ensures Admissible(rest[n..][k], cfg)
    {
      assert rest[n..][k] == rest[n + k];
    }
  }

  /** Left-to-right placements with non-negative widths are ordered, each
      ending at least a padding before any later one starts. */
  lemma {:induction false} ChainOrdered(items: seq<Placement>, pad: int)
    // The chain is stated over neighbours `k == i + 1`, the form of
    // `GreedyRun` and `WellShaped`, so that it triggers on `items[k]` and
    // `items[i]`.
    requires pad >= 0
    requires forall k :: 0 <= k < |items| ==> items[k].w >= 0
    requires forall k, i :: 0 < k < |items| && 0 <= i < k && k == i + 1 ==> items[k].x == items[i].x + items[i].w + pad
    ensures forall j, i :: 0 <= i < j < |items| ==> items[i].x + items[i].w + pad <= items[j].x
    decreases |items|
  {
    if |items| > 1 {
      var init := items[..|items| - 1];
      ChainOrdered(init, pad);
      var last := |items| - 1;
      forall i | 0 <= i < last
        ensures items[i].x + items[i].w + pad <= items[last].x
      {
        if i < last - 1 {
          assert init[i] == items[i] && init[last - 1] == items[last - 1];
        }
      }
    }
  }

  /** A gathered run started at the left margin lies right of it, and every
      image in it fits on a fresh shelf. */
  lemma {:induction false} RunFits(items: seq<Placement>, rest: seq<Size>, y: int, cfg: Config)
    requires cfg.padding >= 0 && AllAdmissible(rest, cfg)
    requires GreedyRun(items, rest, cfg.padding, y, cfg)
    ensures forall k :: 0 <= k < |items| ==> cfg.padding <= items[k].x && Fits(rest[k], cfg)
  {
    ChainOrdered(items, cfg.padding);
    forall k | 0 <= k < |items|
      ensures cfg.padding <= items[k].x
    {
      if k > 0 {
        assert items[0].x + items[0].w + cfg.padding <= items[k].x;
      }
    }
  }

  /** A gathered run started at the left margin is empty exactly when the
      first remaining image does not fit, and a non-empty one is at least a
      pixel tall. */
  lemma {:induction false} RunTall(items: seq<Placement>, rest: seq<Size>, y: int, cfg: Config)
    requires cfg.padding >= 0 && AllAdmissible(rest, cfg)
    requires GreedyRun(items, rest, cfg.padding, y, cfg)
    ensures |items| > 0 ==> Fits(rest[0], cfg) && Tallest(items) >= 1
    ensures |items| == 0 && |rest| > 0 ==> !Fits(rest[0], cfg)
  {
    RunFits(items, rest, y, cfg);
    if |items| > 0 {
      TallestBounds(items);
      assert items[0].h == rest[0].h;
    } else {
      assert EndX(items, cfg.padding, cfg) == cfg.padding;
    }
  }

  /** Under admissible input, a shelf is a gathered one exactly when its
      first image fits; otherwise it holds that image alone, force-scaled.
      Either way it places its images faithfully and is well shaped. */
  lemma {:induction false} ShelfFacts(sh: Shelf, rest: seq<Size>, cfg: Config)
    requires cfg.padding >= 0 && AllAdmissible(rest, cfg)
    requires GreedyShelf(sh, rest, cfg) || FallbackShelf(sh, rest, cfg)
    ensures |rest| > 0
    ensures GreedyShelf(sh, rest, cfg) <==> Fits(rest[0], cfg)
    ensures !Fits(rest[0], cfg) ==> |sh.items| == 1
    ensures Tracks(sh.items, rest, cfg)
    ensures WellShaped(sh, cfg)
  {
    if GreedyShelf(sh, rest, cfg) {
      GreedyShelfFacts(sh, rest, cfg);
    } else {
      FallbackShelfFacts(sh, rest, cfg);
    }
  }

  lemma {:induction false} GreedyShelfFacts(sh: Shelf, rest: seq<Size>, cfg: Config)
    requires cfg.padding >= 0 && AllAdmissible(rest, cfg)
    requires GreedyShelf(sh, rest, cfg)
    ensures |rest| > 0 && Fits(rest[0], cfg) && !FallbackShelf(sh, rest, cfg)
    ensures Tracks(sh.items, rest, cfg)
    ensures WellShaped(sh, cfg)
  {
    RunTall(sh.items, rest, sh.top, cfg);
    RunFits(sh.items, rest, sh.top, cfg);
    TallestBounds(sh.items);
    ShelfNotBoth(sh, rest, cfg);
  }

  lemma {:induction false} FallbackShelfFacts(sh: Shelf, rest: seq<Size>, cfg: Config)
    requires cfg.padding >= 0 && AllAdmissible(rest, cfg)
    requires FallbackShelf(sh, rest, cfg)
    ensures |rest| > 0 && !Fits(rest[0], cfg) && |sh.items| == 1
    ensures Tracks(sh.items, rest, cfg)
    ensures WellShaped(sh, cfg)
  {
    var m := |sh.items| - 1;
    RunTall(sh.items[..m], rest, sh.top, cfg);
    assert sh.items == [sh.items[0]];
    FallbackFaithful(sh.items[0], rest[0], sh.top, cfg);
  }

  /** A shelf whose first image fits is not a fallback shelf. */
  lemma {:induction false} ShelfNotBoth(sh: Shelf, rest: seq<Size>, cfg: Config)
    requires cfg.padding >= 0 && AllAdmissible(rest, cfg)
    requires |rest| > 0 && Fits(rest[0], cfg)
    ensures !FallbackShelf(sh, rest, cfg)
  {
    if FallbackShelf(sh, rest, cfg) {
      RunTall(sh.items[..|sh.items| - 1], rest, sh.top, cfg);
      assert false;
    }
  }

  /** The force-scaled placement keeps the aspect ratio and never grows. */
  lemma {:induction false} FallbackFaithful(p: Placement, sz: Size, top: int, cfg: Config)
    requires cfg.padding >= 0 && Admissible(sz, cfg) && !Fits(sz, cfg)
    requires FallbackPlacement(p, sz, top, cfg)
    ensures ForcedFit(p, sz, cfg)
  {
    var u := UsableWidth(cfg);
    assert sz.w > u > 0;
    assert p.h == RoundDiv(sz.h * u, sz.w);
    MulMonotonic(u, 0, sz.h);
    RoundDivAtLeast(sz.h * u, sz.w, 0);
    if sz.h > 0 {
      MulMonotonic(sz.h, u, sz.w);
    }
    RoundDivAtMost(sz.h * u, sz.w, sz.h);
  }

  /** Every shelf of a page is well shaped and the page places its images
      faithfully. */
  lemma {:induction false} PageFacts(shelves: seq<Shelf>, rest: seq<Size>, cfg: Config)
    requires cfg.padding >= 0 && AllAdmissible(rest, cfg)
    requires ShelvesFrom(shelves, rest, cfg)
    ensures Tracks(Flatten(shelves), rest, cfg)
    ensures forall j :: 0 <= j < |shelves| ==> WellShaped(shelves[j], cfg)
    decreases |shelves|
  {
    if |shelves| > 0 {
      var sh := shelves[0];
      var n := |sh.items|;
      ShelfFacts(sh, rest, cfg);
      SuffixAdmissible(rest, n, cfg);
      PageFacts(shelves[1..], rest[n..], cfg);
      assert Flatten(shelves) == sh.items + Flatten(shelves[1..]);
      TracksAppend(sh.items, Flatten(shelves[1..]), rest, cfg);
      WellShapedCons(shelves, cfg);
    }
  }

  lemma {:induction false} WellShapedCons(shelves: seq<Shelf>, cfg: Config)
    requires |shelves| > 0 && WellShaped(shelves[0], cfg)
    requires forall j :: 0 <= j < |shelves| - 1 ==> WellShaped(shelves[1..][j], cfg)
    ensures forall j :: 0 <= j < |shelves| ==> WellShaped(shelves[j], cfg)
  {
    forall j | 0 < j < |shelves|
      ensures WellShaped(shelves[j], cfg)
    {
      assert shelves[j] == shelves[1..][j - 1];
    }
  }

  /** Every shelf of every page is well shaped and the pages together place
      the images faithfully. */
  lemma {:induction false} LayoutFacts(layout: seq<seq<Shelf>>, rest: seq<Size>, cfg: Config)
    requires cfg.padding >= 0 && AllAdmissible(rest, cfg)
    requires LayoutFrom(layout, rest, cfg)
    ensures Tracks(Concat(Pages(layout)), rest, cfg)
    ensures forall j, i :: 0 <= j < |layout| && 0 <= i < |layout[j]| ==> WellShaped(layout[j][i], cfg)
    decreases |layout|
  {
    if |layout| > 0 {
      var page := layout[0];
      var n := |Flatten(page)|;
      PageFacts(page, rest, cfg);
      SuffixAdmissible(rest, n, cfg);
      LayoutFacts(layout[1..], rest[n..], cfg);
      assert [page] + layout[1..] == layout;
      ConcatPagesCons(page, layout[1..]);
      TracksAppend(Flatten(page), Concat(Pages(layout[1..])), rest, cfg);
      forall j, i | 0 < j < |layout| && 0 <= i < |layout[j]|
        ensures WellShaped(layout[j][i], cfg)
      {
        assert layout[j] == layout[1..][j - 1];
      }
    }
  }

  lemma {:induction false} StackedTail(shelves: seq<Shelf>, y: int, cfg: Config)
    requires |shelves| > 0 && Stacked(shelves, y, cfg)
    ensures Stacked(shelves[1..], y + shelves[0].height + cfg.padding, cfg)
  {
    var tail := shelves[1..];
    forall j | 0 < j < |tail|
      ensures tail[j].top == tail[j - 1].top + tail[j - 1].height + cfg.padding
    {
      assert tail[j] == shelves[j + 1] && tail[j - 1] == shelves[j];
    }
  }

  /** Every placement of stacked, well-shaped shelves opened at `y` lies at or
      below `y`. */
  lemma {:induction false} FlattenBelow(shelves: seq<Shelf>, y: int, cfg: Config)
    requires cfg.padding >= 0 && Stacked(shelves, y, cfg)
    requires forall j :: 0 <= j < |shelves| ==> WellShaped(shelves[j], cfg)
    ensures forall k :: 0 <= k < |Flatten(shelves)| ==> Flatten(shelves)[k].y >= y
    decreases |shelves|
  {
    if |shelves| > 0 {
      var sh := shelves[0];
      var y' := y + sh.height + cfg.padding;
      assert sh.items[0].h <= sh.height;
      StackedTail(shelves, y, cfg);
      assert forall j :: 0 <= j < |shelves| - 1 ==> shelves[1..][j] == shelves[j + 1];
      FlattenBelow(shelves[1..], y', cfg);
    }
  }

  /** Every placement of well-shaped shelves, each opened above
      `page_h_px - padding`, has its top edge above that line too. */
  lemma {:induction false} FlattenAbove(shelves: seq<Shelf>, cfg: Config)
    requires forall j :: 0 <= j < |shelves| ==> shelves[j].top < cfg.pageH - cfg.padding
    requires forall j :: 0 <= j < |shelves| ==> WellShaped(shelves[j], cfg)
    ensures forall k :: 0 <= k < |Flatten(shelves)| ==> Flatten(shelves)[k].y < cfg.pageH - cfg.padding
    decreases |shelves|
  {
    if |shelves| > 0 {
      var tail := shelves[1..];
      assert forall j :: 0 <= j < |tail| ==> tail[j] == shelves[j + 1];
      FlattenAbove(tail, cfg);
      assert Flatten(shelves) == shelves[0].items + Flatten(tail);
    }
  }

  /** On stacked, well-shaped shelves each placement lies at least one padding
      to the right of, or below, every earlier one. */
  lemma {:induction false} PageSeparated(shelves: seq<Shelf>, y: int, cfg: Config)
    requires cfg.padding >= 0 && Stacked(shelves, y, cfg)
    requires forall j :: 0 <= j < |shelves| ==> WellShaped(shelves[j], cfg)
    ensures forall j, i :: 0 <= i < j < |Flatten(shelves)| ==>
              Separated(Flatten(shelves)[i], Flatten(shelves)[j], cfg.padding)
    decreases |shelves|
  {
    if |shelves| > 0 {
      var sh := shelves[0];
      var items := sh.items;
      var tail := shelves[1..];
      var y' := y + sh.height + cfg.padding;
      var flat := Flatten(shelves);
      var below := Flatten(tail);
      assert flat == items + below;
      StackedTail(shelves, y, cfg);
      assert forall j :: 0 <= j < |tail| ==> tail[j] == shelves[j + 1];
      PageSeparated(tail, y', cfg);
      FlattenBelow(tail, y', cfg);
      ChainOrdered(items, cfg.padding);
      forall i, j | 0 <= i < j < |flat|
        ensures Separated(flat[i], flat[j], cfg.padding)
      {
        if j < |items| {
          assert flat[i] == items[i] && flat[j] == items[j];
        } else if i < |items| {
          assert flat[i] == items[i] && flat[j] == below[j - |items|];
        } else {
          assert flat[i] == below[i - |items|] && flat[j] == below[j - |items|];
        }
      }
    }
  }

  /** Under admissible input and a non-negative padding, the layout places
      every image faithfully and every shelf is well shaped. */
  lemma {:induction false} PackedLayoutFaithful(sizes: seq<Size>, cfg: Config)
    requires |sizes| == 0 || cfg.padding < cfg.pageH - cfg.padding
    requires cfg.padding >= 0 && AllAdmissible(sizes, cfg)
    ensures var r := PackPages(sizes, cfg);
      r.Ok? ==>
        && |Concat(Pages(r.value))| == |sizes|
        && Tracks(Concat(Pages(r.value)), sizes, cfg)
        && forall j, i :: 0 <= j < |r.value| && 0 <= i < |r.value[j]| ==> WellShaped(r.value[j][i], cfg)
  {
    var r := PackPages(sizes, cfg);
    PackPagesSpec(sizes, cfg);
    if r.Ok? {
      LayoutFacts(r.value, sizes, cfg);
    }
  }

  /** Completeness with faithfulness: the k-th placement, reading pages in
      order, is the k-th input image, kept at its size inside the horizontal
      margins when it fits on a fresh shelf and force-scaled otherwise. */
  lemma {:induction false} PlacementsFaithful(sizes: seq<Size>, cfg: Config)
    requires |sizes| == 0 || cfg.padding < cfg.pageH - cfg.padding
    requires cfg.padding >= 0 && AllAdmissible(sizes, cfg)
    ensures var r := PackImagesShelf(sizes, cfg);
      r.Ok? ==>
        && |Concat(r.value)| == |sizes|
        && forall k :: 0 <= k < |sizes| ==> Faithful(Concat(r.value)[k], sizes[k], cfg)
  {
    PackedLayoutFaithful(sizes, cfg);
  }

  /** The vertical part of containment that the packer keeps: every
      placement's top edge lies at or below `padding` and above
      `page_h_px - padding`, because a shelf opens only above that line. Its
      bottom edge is not bounded. */
  lemma {:induction false} PlacementTops(sizes: seq<Size>, cfg: Config)
    requires |sizes| == 0 || cfg.padding < cfg.pageH - cfg.padding
    requires cfg.padding >= 0 && AllAdmissible(sizes, cfg)
    ensures var r := PackImagesShelf(sizes, cfg);
      r.Ok? ==> forall j, a :: 0 <= j < |r.value| && 0 <= a < |r.value[j]| ==>
        cfg.padding <= r.value[j][a].y < cfg.pageH - cfg.padding
  {
    var p := PackPages(sizes, cfg);
    PackPagesSpec(sizes, cfg);
    PackedLayoutFaithful(sizes, cfg);
    if p.Ok? {
      var layout := p.value;
      forall j | 0 <= j < |layout|
        ensures forall a :: 0 <= a < |Flatten(layout[j])| ==>
                  cfg.padding <= Flatten(layout[j])[a].y < cfg.pageH - cfg.padding
      {
        assert forall i :: 0 <= i < |layout[j]| ==> WellShaped(layout[j][i], cfg);
        FlattenBelow(layout[j], cfg.padding, cfg);
        FlattenAbove(layout[j], cfg);
      }
    }
  }

  /** Placements each separated from the ones before them do not overlap. */
  lemma {:induction false} SeparatedDisjoint(page: Page, pad: int)
    requires pad >= 0
    requires forall a, b :: 0 <= a < b < |page| ==> Separated(page[a], page[b], pad)
    ensures forall a, b :: 0 <= a < |page| && 0 <= b < |page| && a != b ==> !Overlap(page[a], page[b])
  {
    forall a, b | 0 <= a < |page| && 0 <= b < |page| && a != b
      ensures !Overlap(page[a], page[b])
    {
      if a < b {
        assert Separated(page[a], page[b], pad);
      } else {
        assert Separated(page[b], page[a], pad);
      }
    }
  }

  /** No two placements on one page overlap; each lies at least one padding
      to the right of, or below, every placement before it. */
  lemma {:induction false} PagesDisjoint(sizes: seq<Size>, cfg: Config)
    requires |sizes| == 0 || cfg.padding < cfg.pageH - cfg.padding
    requires cfg.padding >= 0 && AllAdmissible(sizes, cfg)
    ensures var r := PackImagesShelf(sizes, cfg);
      r.Ok? ==> forall j :: 0 <= j < |r.value| ==>
        && (forall a, b :: 0 <= a < b < |r.value[j]| ==> Separated(r.value[j][a], r.value[j][b], cfg.padding))
        && (forall a, b :: 0 <= a < |r.value[j]| && 0 <= b < |r.value[j]| && a != b ==>
              !Overlap(r.value[j][a], r.value[j][b]))
  {
    var r := PackPages(sizes, cfg);
    PackPagesSpec(sizes, cfg);
    if r.Ok? {
      PackedLayoutFaithful(sizes, cfg);
      var pages := Pages(r.value);
      assert PackImagesShelf(sizes, cfg) == Ok(pages);
      forall j | 0 <= j < |pages|
        ensures forall a, b :: 0 <= a < b < |pages[j]| ==> Separated(pages[j][a], pages[j][b], cfg.padding)
        ensures forall a, b :: 0 <= a < |pages[j]| && 0 <= b < |pages[j]| && a != b ==>
                  !Overlap(pages[j][a], pages[j][b])
      {
        PageSeparated(r.value[j], cfg.padding, cfg);
        SeparatedDisjoint(pages[j], cfg.padding);
      }
    }
  }

  /** Under admissible input, one shelf fails exactly when its first image
      does not fit and the usable width is not positive. */
  lemma {:induction false} ShelfOutcome(rest: seq<Size>, y: int, cfg: Config)
    requires |rest| > 0
    requires cfg.padding >= 0 && AllAdmissible(rest, cfg)
    ensures PackShelf(rest, y, cfg).Err? <==> !Fits(rest[0], cfg) && UsableWidth(cfg) <= 0
    ensures PackShelf(rest, y, cfg).Err? ==> PackShelf(rest, y, cfg).error == PageTooNarrow
  {
    GatherRun(rest, cfg.padding, y, cfg);
    RunTall(Gather(rest, cfg.padding, y, cfg), rest, y, cfg);
  }

  /** Under admissible input, a failed layout fails on a page-too-narrow
      error for an image that does not fit. */
  lemma {:induction false} FailureCause(rest: seq<Size>, e: PackError, cfg: Config)
    requires cfg.padding >= 0 && AllAdmissible(rest, cfg)
    requires ShelfFails(rest, e, cfg)
    ensures e == PageTooNarrow && UsableWidth(cfg) <= 0
    ensures exists k :: 0 <= k < |rest| && !Fits(rest[k], cfg)
  {
    var k, y :| 0 <= k < |rest| && PackShelf(rest[k..], y, cfg) == Err(e);
    SuffixAdmissible(rest, k, cfg);
    ShelfOutcome(rest[k..], y, cfg);
    assert rest[k..][0] == rest[k];
  }

  /** The error condition: under admissible input, packing raises exactly
      when some image does not fit on a fresh shelf and the usable width
      `page_w_px - 2 * padding` is not positive, and then it raises the
      page-too-narrow error. Inputs that all fit never raise. */
  lemma {:induction false} PackOutcome(sizes: seq<Size>, cfg: Config)
    requires |sizes| == 0 || cfg.padding < cfg.pageH - cfg.padding
    requires cfg.padding >= 0 && AllAdmissible(sizes, cfg)
    ensures PackImagesShelf(sizes, cfg).Err? <==>
              UsableWidth(cfg) <= 0 && exists k :: 0 <= k < |sizes| && !Fits(sizes[k], cfg)
    ensures PackImagesShelf(sizes, cfg).Err? ==> PackImagesShelf(sizes, cfg).error == PageTooNarrow
  {
    var r := PackPages(sizes, cfg);
    PackPagesSpec(sizes, cfg);
    if r.Err? {
      FailureCause(sizes, r.error, cfg);
    } else {
      PackedLayoutFaithful(sizes, cfg);
      var flat := Concat(Pages(r.value));
      forall k | 0 <= k < |sizes| && !Fits(sizes[k], cfg)
        ensures UsableWidth(cfg) > 0
      {
        assert Faithful(flat[k], sizes[k], cfg);
      }
    }
  }
}
