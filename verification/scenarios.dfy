/** Worked layouts of the shelf packer on small inputs, including the ways it
    raises. */
module PackerScenarios {
  import opened LayoutTypes
  import opened ShelfPacker
  import opened Rounding
  import opened SizeNormalizer

  /** One turn of the page loop: a shelf, then the rest of the page below it. */
  lemma {:induction false} PageStep(rest: seq<Size>, y: int, cfg: Config, sh: Shelf, more: seq<Shelf>)
    requires y < cfg.pageH - cfg.padding && |rest| > 0
    requires PackShelf(rest, y, cfg) == Ok(sh)
    requires PackPage(rest[|sh.items|..], y + sh.height + cfg.padding, cfg) == Ok(more)
    ensures PackPage(rest, y, cfg) == Ok([sh] + more)
  {
  }

  /** One turn of the outer loop: a page, then the pages after it. */
  lemma {:induction false} PagesStep(rest: seq<Size>, cfg: Config, page: seq<Shelf>, more: seq<seq<Shelf>>)
    requires cfg.padding < cfg.pageH - cfg.padding && |rest| > 0
    requires PackPage(rest, cfg.padding, cfg) == Ok(page)
    requires |Flatten(page)| <= |rest|
    requires PackPages(rest[|Flatten(page)|..], cfg) == Ok(more)
    ensures PackPages(rest, cfg) == Ok([page] + more)
  {
  }

  lemma {:induction false} SquaresFirstShelf()
    ensures PackShelf([Size(100, 100, 0), Size(100, 100, 1), Size(100, 100, 2)], 10, Config(300, 300, 10))
         == Ok(Shelf(10, 100, [Placement(0, 10, 10, 100, 100), Placement(1, 120, 10, 100, 100)]))
  {
    var s := [Size(100, 100, 0), Size(100, 100, 1), Size(100, 100, 2)];
    var p0, p1 := Placement(0, 10, 10, 100, 100), Placement(1, 120, 10, 100, 100);
    assert s[1..][1..] == [Size(100, 100, 2)];
    assert Gather(s, 10, 10, Config(300, 300, 10)) == [p0, p1];
    assert Tallest([p0]) == 100;
    assert [p0, p1][..1] == [p0];
    assert Tallest([p0, p1]) == 100;
  }

  lemma {:induction false} SquaresSecondShelf()
    ensures PackPage([Size(100, 100, 2)], 120, Config(300, 300, 10))
         == Ok([Shelf(120, 100, [Placement(2, 10, 120, 100, 100)])])
  {
    var s := [Size(100, 100, 2)];
    var cfg := Config(300, 300, 10);
    var sh2 := Shelf(120, 100, [Placement(2, 10, 120, 100, 100)]);
    assert Gather(s, 10, 120, cfg) == sh2.items;
    assert Tallest(sh2.items) == 100;
    assert PackShelf(s, 120, cfg) == Ok(sh2);
    assert s[1..] == [];
    assert PackPage(s[1..], 230, cfg) == Ok([]);
    assert [sh2] + [] == [sh2];
  }

  lemma {:induction false} SquaresOnePage()
    ensures PackPage([Size(100, 100, 0), Size(100, 100, 1), Size(100, 100, 2)], 10, Config(300, 300, 10))
         == Ok([Shelf(10, 100, [Placement(0, 10, 10, 100, 100), Placement(1, 120, 10, 100, 100)]),
                Shelf(120, 100, [Placement(2, 10, 120, 100, 100)])])
  {
    var s := [Size(100, 100, 0), Size(100, 100, 1), Size(100, 100, 2)];
    var sh1 := Shelf(10, 100, [Placement(0, 10, 10, 100, 100), Placement(1, 120, 10, 100, 100)]);
    var sh2 := Shelf(120, 100, [Placement(2, 10, 120, 100, 100)]);
    SquaresFirstShelf();
    SquaresSecondShelf();
    assert s[2..] == [Size(100, 100, 2)];
    assert [sh1] + [sh2] == [sh1, sh2];
  }

  /** Three 100 x 100 images on a 300 x 300 page with padding 10: the first
      two share a shelf at `x = 10` and `x = 120`; the third would end at
      `230 + 100 + 10 = 340 > 300`, so it opens a second shelf at `y = 120`.
      All three fit on one page. */
  lemma {:induction false} ThreeSquares()
    ensures PackImagesShelf([Size(100, 100, 0), Size(100, 100, 1), Size(100, 100, 2)], Config(300, 300, 10))
         == Ok([[Placement(0, 10, 10, 100, 100), Placement(1, 120, 10, 100, 100), Placement(2, 10, 120, 100, 100)]])
  {
    var s := [Size(100, 100, 0), Size(100, 100, 1), Size(100, 100, 2)];
    var cfg := Config(300, 300, 10);
    var p0, p1, p2 := Placement(0, 10, 10, 100, 100), Placement(1, 120, 10, 100, 100), Placement(2, 10, 120, 100, 100);
    var sh1, sh2 := Shelf(10, 100, [p0, p1]), Shelf(120, 100, [p2]);
    SquaresOnePage();
    assert Flatten([sh1, sh2]) == [p0, p1, p2];
    assert s[3..] == [];
    assert [[sh1, sh2]] + [] == [[sh1, sh2]];
    assert PackPages(s, cfg) == Ok([[sh1, sh2]]);
    assert Pages([[sh1, sh2]]) == [[p0, p1, p2]];
  }

  /** One 1000 x 50 image on a 300 x 300 page with padding 10 does not fit,
      so it is scaled to the usable width 280 and to height
      `round(50 * 280 / 1000) = 14`. */
  lemma {:induction false} WideImage()
    ensures PackImagesShelf([Size(1000, 50, 0)], Config(300, 300, 10))
         == Ok([[Placement(0, 10, 10, 280, 14)]])
  {
    var s, cfg := [Size(1000, 50, 0)], Config(300, 300, 10);
    var p := Placement(0, 10, 10, 280, 14);
    var sh := Shelf(10, 14, [p]);
    assert Gather(s, 10, 10, cfg) == [];
    RoundDivExact(14, 1000);
    assert 14 * 1000 == 50 * 280;
    assert RoundRatio(50 * 280, 1000) == 14;
    assert Tallest([]) == 0;
    assert [] + [p] == [p];
    assert PackShelf(s, 10, cfg) == Ok(sh);
    assert s[1..] == [];
    PageStep(s, 10, cfg, sh, []);
    assert [sh] + [] == [sh];
    assert Flatten([sh]) == [p];
    PagesStep(s, cfg, [sh], []);
    assert [[sh]] + [] == [[sh]];
    assert Pages([[sh]]) == [[p]];
  }

  function Bar(i: nat): Size
  {
    Size(250, 50, i)
  }

  /** The bars numbered `k` to 4. */
  function BarsFrom(k: nat): (s: seq<Size>)
    requires k <= 5
    ensures |s| == 5 - k
    decreases 5 - k
  {
    if k == 5 then [] else [Bar(k)] + BarsFrom(k + 1)
  }

  /** The shelf holding bar `k` alone. */
  function BarShelf(k: nat): Shelf
  {
    Shelf(10 + 60 * k, 50, [Placement(k, 10, 10 + 60 * k, 250, 50)])
  }

  function BarShelvesFrom(k: nat): (shelves: seq<Shelf>)
    requires k <= 5
    ensures |shelves| == 5 - k
    decreases 5 - k
  {
    if k == 5 then [] else [BarShelf(k)] + BarShelvesFrom(k + 1)
  }

  /** A bar takes a shelf of its own: the next one would need
      `270 + 250 + 10 = 530 > 300` pixels. */
  lemma {:induction false} BarAlone(k: nat)
    requires k < 5
    ensures PackShelf(BarsFrom(k), 10 + 60 * k, Config(300, 300, 10)) == Ok(BarShelf(k))
  {
    var cfg := Config(300, 300, 10);
    var s := BarsFrom(k);
    var p := Placement(k, 10, 10 + 60 * k, 250, 50);
    assert s == [Bar(k)] + BarsFrom(k + 1);
    assert s[1..] == BarsFrom(k + 1);
    if k < 4 {
      assert BarsFrom(k + 1)[0] == Bar(k + 1);
    }
    assert Gather(s[1..], 270, 10 + 60 * k, cfg) == [];
    assert Gather(s, 10, 10 + 60 * k, cfg) == [p];
    assert Tallest([p]) == 50;
  }

  /** The bars from `k` on each take a shelf of their own, stacked from the
      shelf of bar `k`; after bar 4 the next shelf would open at
      `310 >= 300 - 10`. */
  lemma {:induction false} BarsStack(k: nat)
    requires k <= 5
    ensures PackPage(BarsFrom(k), 10 + 60 * k, Config(300, 300, 10)) == Ok(BarShelvesFrom(k))
    decreases 5 - k
  {
    if k < 5 {
      BarsStack(k + 1);
      BarStep(k);
    }
  }

  /** Bar `k` takes one shelf above the shelves of the bars after it. */
  lemma {:induction false} BarStep(k: nat)
    requires k < 5
    requires PackPage(BarsFrom(k + 1), 10 + 60 * (k + 1), Config(300, 300, 10)) == Ok(BarShelvesFrom(k + 1))
    ensures PackPage(BarsFrom(k), 10 + 60 * k, Config(300, 300, 10)) == Ok(BarShelvesFrom(k))
  {
    BarAlone(k);
    BarsUnfold(k);
    PageStep(BarsFrom(k), 10 + 60 * k, Config(300, 300, 10), BarShelf(k), BarShelvesFrom(k + 1));
  }

  /** The bars and their shelves from `k` on, with bar `k` split off. */
  lemma {:induction false} BarsUnfold(k: nat)
    requires k < 5
    ensures BarsFrom(k)[|BarShelf(k).items|..] == BarsFrom(k + 1)
    ensures 10 + 60 * k + BarShelf(k).height + 10 == 10 + 60 * (k + 1)
    ensures [BarShelf(k)] + BarShelvesFrom(k + 1) == BarShelvesFrom(k)
  {
    assert BarsFrom(k) == [Bar(k)] + BarsFrom(k + 1);
  }

  /** The placements of the bars from `k` on, one per shelf. */
  function BarPlacementsFrom(k: nat): (ps: seq<Placement>)
    requires k <= 5
    decreases 5 - k
  {
    if k == 5 then [] else [Placement(k, 10, 10 + 60 * k, 250, 50)] + BarPlacementsFrom(k + 1)
  }

  lemma {:induction false} FlattenBars(k: nat)
    requires k <= 5
    ensures Flatten(BarShelvesFrom(k)) == BarPlacementsFrom(k)
    decreases 5 - k
  {
    if k < 5 {
      FlattenBars(k + 1);
      FlattenCons(BarShelf(k), BarShelvesFrom(k + 1));
    }
  }

  lemma {:induction false} BarsListedFrom3()
    ensures BarsFrom(3) == [Size(250, 50, 3), Size(250, 50, 4)]
    ensures BarPlacementsFrom(3) == [Placement(3, 10, 190, 250, 50), Placement(4, 10, 250, 250, 50)]
  {
    assert BarsFrom(4) == [Bar(4)] + BarsFrom(5);
    assert BarPlacementsFrom(4) == [Placement(4, 10, 250, 250, 50)] + BarPlacementsFrom(5);
  }

  lemma {:induction false} BarsListedFrom1()
    ensures BarsFrom(1) == [Size(250, 50, 1), Size(250, 50, 2), Size(250, 50, 3), Size(250, 50, 4)]
    ensures BarPlacementsFrom(1)
         == [Placement(1, 10, 70, 250, 50), Placement(2, 10, 130, 250, 50),
             Placement(3, 10, 190, 250, 50), Placement(4, 10, 250, 250, 50)]
  {
    BarsListedFrom3();
    assert BarsFrom(2) == [Bar(2)] + BarsFrom(3);
    assert BarPlacementsFrom(2) == [Placement(2, 10, 130, 250, 50)] + BarPlacementsFrom(3);
  }

  lemma {:induction false} BarsListed()
    ensures BarsFrom(0) == [Size(250, 50, 0), Size(250, 50, 1), Size(250, 50, 2), Size(250, 50, 3), Size(250, 50, 4)]
    ensures BarPlacementsFrom(0)
         == [Placement(0, 10, 10, 250, 50), Placement(1, 10, 70, 250, 50), Placement(2, 10, 130, 250, 50),
             Placement(3, 10, 190, 250, 50), Placement(4, 10, 250, 250, 50)]
  {
    BarsListedFrom1();
    assert BarsFrom(0) == [Bar(0)] + BarsFrom(1);
    assert BarPlacementsFrom(0) == [Placement(0, 10, 10, 250, 50)] + BarPlacementsFrom(1);
  }

  /** Five 250 x 50 images on a 300 x 300 page with padding 10 take one shelf
      each; the fifth shelf opens at `y = 250`, still above
      `300 - 10 = 290`, so all five share one page. The input is a parameter
      fixed by the precondition so that the verifier does not unfold the
      packer on a literal list; the proof goes shelf by shelf instead. */
  lemma {:induction false} FiveBars(sizes: seq<Size>)
    requires sizes == [Size(250, 50, 0), Size(250, 50, 1), Size(250, 50, 2), Size(250, 50, 3), Size(250, 50, 4)]
    ensures PackImagesShelf(sizes, Config(300, 300, 10))
         == Ok([[Placement(0, 10, 10, 250, 50), Placement(1, 10, 70, 250, 50), Placement(2, 10, 130, 250, 50),
                 Placement(3, 10, 190, 250, 50), Placement(4, 10, 250, 250, 50)]])
  {
    var cfg, shelves := Config(300, 300, 10), BarShelvesFrom(0);
    BarsStack(0);
    FlattenBars(0);
    BarsListed();
    assert sizes[5..] == [];
    PagesStep(sizes, cfg, shelves, []);
    assert [shelves] + [] == [shelves];
    assert Pages([shelves]) == [BarPlacementsFrom(0)];
  }

  /** A fitting image of height zero closes its shelf with height zero; with
      no image left to force-scale, the lookup past the end raises. */
  lemma {:induction false} FlatImageAtEnd()
    ensures PackImagesShelf([Size(5, 0, 0)], Config(100, 100, 12)) == Err(IndexOutOfRange)
  {
    assert Gather([Size(5, 0, 0)], 12, 12, Config(100, 100, 12)) == [Placement(0, 12, 12, 5, 0)];
  }

  /** A zero-height shelf followed by an image of width zero that does not
      fit divides by that width. */
  lemma {:induction false} ZeroWidthAfterFlatShelf()
    ensures PackImagesShelf([Size(70, 0, 0), Size(0, 5, 1)], Config(100, 100, 12)) == Err(DivisionByZero)
  {
  }

  /** A page no wider than twice the padding cannot take an image that does
      not fit. */
  lemma {:induction false} PageTooNarrowRaises()
    ensures PackImagesShelf([Size(5, 5, 0)], Config(20, 100, 10)) == Err(PageTooNarrow)
  {
  }

  /** A 10000 x 1 image on a 116 x 116 page is scaled by `100 / 10000`, and
      its height `round(0.01)` becomes 0: normalised sizes need not be
      positive. As in `FiveBars`, the input is a parameter fixed by the
      precondition, which keeps the verifier from evaluating the literal
      unaided. */
  lemma {:induction false} HairlineImage(img: ImageSize)
    requires img == ImageSize(10000, 1)
    ensures NormalizeSize(img, 0, 116, 116) == Size(100, 0, 0)
  {
    var s := ScaleFor(img, 116, 116);
    assert WidthFactor(img, 116) == Ratio(100, 10000);
    assert HeightFactor(img, 116) == Ratio(100, 1);
    assert s == Ratio(100, 10000);
    RoundDivExact(100, 10000);
    assert 10000 * 100 == 100 * 10000;
    assert RoundDiv(100, 10000) == 0;
  }
}
