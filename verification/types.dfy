/** Values the layout engine passes between its stages. */
module LayoutTypes {

  /** One packer input entry, the tuple `(w_px, h_px, original_index)`. The
      widths and heights are unbounded integers, as Python's are. */
  datatype Size = Size(w: int, h: int, idx: nat)

  /** One packer output entry, the tuple `(index, x, y, w, h)`. */
  datatype Placement = Placement(idx: nat, x: int, y: int, w: int, h: int)

  /** A page is the ordered list of its placements. */
  type Page = seq<Placement>

  /** Page size in pixels and the gap kept between images and page edges. */
  datatype Config = Config(pageW: int, pageH: int, padding: int)

  /** The ways `pack_images_shelf` can raise: the explicit `RuntimeError`
      for a page too narrow, and the `IndexError` / `ZeroDivisionError`
      its fallback branch runs into on zero-sized images. */
  datatype PackError = PageTooNarrow | IndexOutOfRange | DivisionByZero

  datatype Result<T> = Ok(value: T) | Err(error: PackError)

  /** The original indices of a size list, in order. */
  function SizeIds(s: seq<Size>): (ids: seq<nat>)
    ensures |ids| == |s|
    ensures forall k :: 0 <= k < |s| ==> ids[k] == s[k].idx
  {
    seq(|s|, k requires 0 <= k < |s| => s[k].idx)
  }

  /** The image indices of a placement list, in order. */
  function PlacementIds(ps: seq<Placement>): (ids: seq<nat>)
    ensures |ids| == |ps|
    ensures forall k :: 0 <= k < |ps| ==> ids[k] == ps[k].idx
  {
    seq(|ps|, k requires 0 <= k < |ps| => ps[k].idx)
  }

  /** All placements of all pages, page after page. */
  function Concat(pages: seq<Page>): seq<Placement>
  {
    if |pages| == 0 then [] else pages[0] + Concat(pages[1..])
  }

  /** `ps` places, position by position, the first `|ps|` entries of `rest`. */
  predicate IdsTrack(ps: seq<Placement>, rest: seq<Size>)
  {
    && |ps| <= |rest|
    && forall k :: 0 <= k < |ps| ==> ps[k].idx == rest[k].idx
  }

  lemma {:induction false} IdsTrackAppend(a: seq<Placement>, b: seq<Placement>, rest: seq<Size>)
    requires IdsTrack(a, rest)
    requires IdsTrack(b, rest[|a|..])
    ensures IdsTrack(a + b, rest)
  {
    forall k | 0 <= k < |a + b|
      ensures (a + b)[k].idx == rest[k].idx
    {
      if k >= |a| {
        assert (a + b)[k] == b[k - |a|];
        assert rest[|a|..][k - |a|] == rest[k];
      }
    }
  }

  /** The rectangles of `a` and `b` share an interior point. */
  predicate Overlap(a: Placement, b: Placement)
  {
    && a.x < b.x + b.w && b.x < a.x + a.w
    && a.y < b.y + b.h && b.y < a.y + a.h
  }
}
