/** The size normalisation in `main` that shrinks every image, keeping its
    aspect ratio, until it is at most `page - 16` pixels in each dimension. */
module SizeNormalizer {
  import opened LayoutTypes
  import opened Rounding

  /** How far below the page size an image's width and height are held. */
  const Margin := 16

  /** The pixel size of an opened image; an image size is never negative. */
  datatype ImageSize = ImageSize(w: nat, h: nat)

  /** The exact rational `num / den`; every ratio built here has `den > 0`. */
  datatype Ratio = Ratio(num: int, den: int)

  const One := Ratio(1, 1)

  /** `p <= q` as rationals. */
  predicate AtMost(p: Ratio, q: Ratio)
  {
    p.num * q.den <= q.num * p.den
  }

  lemma {:induction false} AtMostTrans(a: Ratio, b: Ratio, c: Ratio)
    requires a.den > 0 && b.den > 0 && c.den > 0
    requires AtMost(a, b) && AtMost(b, c)
    ensures AtMost(a, c)
  {
    var x, y := a.num * c.den, c.num * a.den;
    MulMonotonic(c.den, a.num * b.den, b.num * a.den);
    MulMonotonic(a.den, b.num * c.den, c.num * b.den);
    assert c.den * (a.num * b.den) == b.den * x;
    assert c.den * (b.num * a.den) == a.den * (b.num * c.den);
    assert a.den * (c.num * b.den) == b.den * y;
    if x > y {
      MulMonotonic(b.den, y + 1, x);
      assert false;
    }
  }

  /** Python's `min(p, q)`: the first argument unless the second is strictly
      smaller. */
  function MinRatio(p: Ratio, q: Ratio): (m: Ratio)
    requires p.den > 0 && q.den > 0
    ensures m == p || m == q
    ensures AtMost(m, p) && AtMost(m, q)
    ensures AtMost(p, q) ==> m == p
  {
    if q.num * p.den < p.num * q.den then q else p
  }

  /** The factor for width: `max_w / w`, or 1 for a zero width. */
  function WidthFactor(img: ImageSize, pageW: int): Ratio
  {
    if img.w > 0 then Ratio(pageW - Margin, img.w) else One
  }

  function HeightFactor(img: ImageSize, pageH: int): Ratio
  {
    if img.h > 0 then Ratio(pageH - Margin, img.h) else One
  }

  /** The scale factor of line 152: the least of 1, the width factor and the
      height factor, taken in that order. A zero dimension contributes 1. */
  function ScaleFor(img: ImageSize, pageW: int, pageH: int): (s: Ratio)
    ensures s.den > 0
    ensures s == One || s == WidthFactor(img, pageW) || s == HeightFactor(img, pageH)
    ensures AtMost(s, One) && AtMost(s, WidthFactor(img, pageW)) && AtMost(s, HeightFactor(img, pageH))
    ensures s == One <==>
              (img.w == 0 || img.w <= pageW - Margin) && (img.h == 0 || img.h <= pageH - Margin)
  {
    var byW, byH := WidthFactor(img, pageW), HeightFactor(img, pageH);
    var m := MinRatio(One, byW);
    var s := MinRatio(m, byH);
    AtMostTrans(s, m, One);
    AtMostTrans(s, m, byW);
    s
  }

  /** One entry of `sizes`: the image scaled by `ScaleFor`, each dimension
      rounded half-to-even, tagged with its position `idx`. */
  function NormalizeSize(img: ImageSize, idx: nat, pageW: int, pageH: int): (r: Size)
    ensures r.idx == idx
  {
    var s := ScaleFor(img, pageW, pageH);
    Size(RoundDiv(img.w * s.num, s.den), RoundDiv(img.h * s.num, s.den), idx)
  }

  /** The whole `sizes` list, in image order. */
  function NormalizeAll(images: seq<ImageSize>, pageW: int, pageH: int): (sizes: seq<Size>)
    ensures |sizes| == |images|
    ensures forall i :: 0 <= i < |images| ==> sizes[i] == NormalizeSize(images[i], i, pageW, pageH)
  {
    seq(|images|, i requires 0 <= i < |images| => NormalizeSize(images[i], i, pageW, pageH))
  }

  /** The indices `0, 1, ..., n - 1`. */
  function Indices(n: nat): (ids: seq<nat>)
    ensures |ids| == n
    ensures forall i :: 0 <= i < n ==> ids[i] == i
  {
    seq(n, i requires 0 <= i < n => i)
  }

  lemma {:induction false} MulNonNegMonotonic(k: int, a: int, b: int)
    requires k >= 0 && a <= b
    ensures k * a <= k * b
  {
    if k > 0 {
      MulMonotonic(k, a, b);
    }
  }

  /** One dimension `x` scaled by a factor `s <= 1` that is also at most
      `k / x`: the rounded result is at most `x`, at most `k` when `x` is
      positive, and zero when `x` is. */
  lemma {:induction false} ScaledDim(x: nat, s: Ratio, k: int)
    requires s.den > 0 && AtMost(s, One)
    requires x > 0 ==> AtMost(s, Ratio(k, x))
    ensures RoundDiv(x * s.num, s.den) <= x
    ensures x > 0 ==> RoundDiv(x * s.num, s.den) <= k
    ensures x == 0 ==> RoundDiv(x * s.num, s.den) == 0
  {
    if x > 0 {
      MulMonotonic(x, s.num, s.den);
      RoundDivAtMost(x * s.num, s.den, x);
      assert x * s.num == s.num * x;
      RoundDivAtMost(x * s.num, s.den, k);
    } else {
      assert x * s.num == 0 * s.den;
      RoundDivExact(0, s.den);
    }
  }

  /** Normalisation never enlarges, and once a dimension is positive it is at
      most the page size less the margin. */
  lemma {:induction false} NormalizeBounds(img: ImageSize, idx: nat, pageW: int, pageH: int)
    ensures var r := NormalizeSize(img, idx, pageW, pageH);
      && r.w <= img.w && r.h <= img.h
      && (img.w > 0 ==> r.w <= pageW - Margin)
      && (img.h > 0 ==> r.h <= pageH - Margin)
      && (img.w == 0 ==> r.w == 0)
      && (img.h == 0 ==> r.h == 0)
  {
    var s := ScaleFor(img, pageW, pageH);
    ScaledDim(img.w, s, pageW - Margin);
    ScaledDim(img.h, s, pageH - Margin);
  }

  /** An image is left untouched exactly when each positive dimension is
      already within the page size less the margin. */
  lemma {:induction false} NormalizeUnchanged(img: ImageSize, idx: nat, pageW: int, pageH: int)
    ensures var r := NormalizeSize(img, idx, pageW, pageH);
      (r.w == img.w && r.h == img.h) <==>
        (img.w == 0 || img.w <= pageW - Margin) && (img.h == 0 || img.h <= pageH - Margin)
  {
    var s := ScaleFor(img, pageW, pageH);
    NormalizeBounds(img, idx, pageW, pageH);
    if s == One {
      RoundDivExact(img.w, 1);
      RoundDivExact(img.h, 1);
    }
  }

  /** With pages at least the margin in size, normalised sizes are never
      negative. */
  lemma {:induction false} NormalizeNonNegative(img: ImageSize, idx: nat, pageW: int, pageH: int)
    requires Margin <= pageW && Margin <= pageH
    ensures var r := NormalizeSize(img, idx, pageW, pageH);
      0 <= r.w && 0 <= r.h
  {
    var s := ScaleFor(img, pageW, pageH);
    assert 0 <= s.num;
    ScaledNonNegative(img.w, s);
    ScaledNonNegative(img.h, s);
  }

  lemma {:induction false} ScaledNonNegative(x: nat, s: Ratio)
    requires s.den > 0 && 0 <= s.num
    ensures 0 <= RoundDiv(x * s.num, s.den)
  {
    MulNonNegMonotonic(x, 0, s.num);
    assert 0 * s.den == 0;
    RoundDivAtLeast(x * s.num, s.den, 0);
  }

  /** The cross-product bound behind `RoundedAspect`, over abstract products:
      `a` and `b` are within half of `d` of `p` and `q`, and `h * p == w * q`. */
  lemma {:induction false} CrossBound(w: int, h: int, a: int, b: int, p: int, q: int, d: int)
    requires w >= 0 && h >= 0 && d > 0
    requires 2 * p - d <= 2 * a <= 2 * p + d
    requires 2 * q - d <= 2 * b <= 2 * q + d
    requires h * p == w * q
    ensures -(d * (w + h)) <= 2 * (h * a - w * b) <= d * (w + h)
  {
    MulNonNegMonotonic(h, 2 * a, 2 * p + d);
    MulNonNegMonotonic(h, 2 * p - d, 2 * a);
    MulNonNegMonotonic(w, 2 * q - d, 2 * b);
    MulNonNegMonotonic(w, 2 * b, 2 * q + d);
    assert h * (2 * p + d) == 2 * (h * p) + h * d;
    assert h * (2 * p - d) == 2 * (h * p) - h * d;
    assert w * (2 * q + d) == 2 * (w * q) + w * d;
    assert w * (2 * q - d) == 2 * (w * q) - w * d;
    assert d * (w + h) == w * d + h * d;
  }

  /** Two dimensions scaled by one factor and each rounded to the nearest
      integer keep their ratio: the cross products differ by at most half
      the sum of the original dimensions. */
  lemma {:induction false} RoundedAspect(w: int, h: int, n: int, d: int, rw: int, rh: int)
    requires w >= 0 && h >= 0 && d > 0
    requires 2 * (w * n) - d <= 2 * (d * rw) <= 2 * (w * n) + d
    requires 2 * (h * n) - d <= 2 * (d * rh) <= 2 * (h * n) + d
    ensures -(w + h) <= 2 * (rw * h - rh * w) <= w + h
  {
    var a, b := d * rw, d * rh;
    assert h * (w * n) == w * (h * n);
    CrossBound(w, h, a, b, w * n, h * n, d);
    var e := 2 * (rw * h - rh * w);
    assert d * e == 2 * (h * a - w * b);
    DivideBound(d, e, w + h);
  }

  /** Cancelling a positive factor from both sides of a two-sided bound. */
  lemma {:induction false} DivideBound(d: int, e: int, m: int)
    requires d > 0
    requires -(d * m) <= d * e <= d * m
    ensures -m <= e <= m
  {
    if e > m {
      MulMonotonic(d, m + 1, e);
      assert false;
    }
    if e < -m {
      MulMonotonic(d, e, -m - 1);
      assert false;
    }
  }

  /** Normalisation keeps the aspect ratio up to rounding:
      `|w2 * h - h2 * w| <= (w + h) / 2`. */
  lemma {:induction false} NormalizeAspect(img: ImageSize, idx: nat, pageW: int, pageH: int)
    ensures var r := NormalizeSize(img, idx, pageW, pageH);
      -(img.w + img.h) <= 2 * (r.w * img.h - r.h * img.w) <= img.w + img.h
  {
    var s := ScaleFor(img, pageW, pageH);
    var r := NormalizeSize(img, idx, pageW, pageH);
    RoundedAspect(img.w, img.h, s.num, s.den, r.w, r.h);
  }

  /** For a positive image on a page larger than the margin, a normalised
      height rounded down to zero can only come from scaling the width to
      exactly the page width less the margin. */
  lemma {:induction false} NormalizeFlat(img: ImageSize, idx: nat, pageW: int, pageH: int)
    requires img.w > 0 && img.h > 0
    requires Margin < pageW && Margin < pageH
    ensures var r := NormalizeSize(img, idx, pageW, pageH);
      1 <= r.h || r.w == pageW - Margin
  {
    var s := ScaleFor(img, pageW, pageH);
    if s == One {
      RoundDivExact(img.h, 1);
    } else if s == HeightFactor(img, pageH) {
      ScaledToBound(img.h, pageH - Margin);
    } else {
      ScaledToBound(img.w, pageW - Margin);
    }
  }

  /** A positive dimension `x` scaled by `k / x` rounds to exactly `k`. */
  lemma {:induction false} ScaledToBound(x: int, k: int)
    requires x > 0
    ensures RoundDiv(x * k, x) == k
  {
    assert x * k == k * x;
    RoundDivExact(k, x);
  }
}
