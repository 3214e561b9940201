/** The sky-region cropper: project the corners of a sky polygon into an
    exposure's pixel grid, take their bounding box widened by a fixed margin
    and clamped to the image, and cut that box out of the pixel array, or
    report that no usable region exists. */
module SkyCrop {
  import opened Images

  /** A point in an exposure's pixel coordinates (not necessarily integral). */
  datatype PixelPoint = PixelPoint(x: real, y: real)

  /** The half-open pixel box `[minX, maxX) x [minY, maxY)`. */
  datatype Region = Region(minX: int, maxX: int, minY: int, maxY: int)

  /** Pixels added on every side of the corners' bounding box. */
  const Margin: int := 50
  /** Shortest side, in pixels, of a crop worth returning. */
  const MinSize: int := 100

  /** The corners' pixel positions, `[wcs.skyToPixel(sky) for sky in sky_corners]`. */
  function Corners<S>(skyToPixel: S -> PixelPoint, skyCorners: seq<S>): (pts: seq<PixelPoint>)
    ensures |pts| == |skyCorners| && forall i :: 0 <= i < |pts| ==> pts[i] == skyToPixel(skyCorners[i])
  {
    seq(|skyCorners|, i requires 0 <= i < |skyCorners| => skyToPixel(skyCorners[i]))
  }

  /** Python `min` over a non-empty list. */
  function Min(xs: seq<real>): (m: real)
    requires |xs| > 0
    ensures m in xs
    ensures forall i :: 0 <= i < |xs| ==> m <= xs[i]
  {
    if |xs| == 1 then xs[0]
    else
      var rest := Min(xs[1..]);
      if xs[0] <= rest then xs[0] else rest
  }

  /** Python `max` over a non-empty list. */
  function Max(xs: seq<real>): (m: real)
    requires |xs| > 0
    ensures m in xs
    ensures forall i :: 0 <= i < |xs| ==> xs[i] <= m
  {
    if |xs| == 1 then xs[0]
    else
      var rest := Max(xs[1..]);
      if rest <= xs[0] then xs[0] else rest
  }

  /** The x coordinates, in corner order. */
  function Xs(pts: seq<PixelPoint>): (xs: seq<real>)
    ensures |xs| == |pts| && forall i :: 0 <= i < |pts| ==> xs[i] == pts[i].x
  {
    seq(|pts|, i requires 0 <= i < |pts| => pts[i].x)
  }

  /** The y coordinates, in corner order. */
  function Ys(pts: seq<PixelPoint>): (ys: seq<real>)
    ensures |ys| == |pts| && forall i :: 0 <= i < |pts| ==> ys[i] == pts[i].y
  {
    seq(|pts|, i requires 0 <= i < |pts| => pts[i].y)
  }

  /** Truncating the smallest (largest) coordinate gives the smallest (largest)
      truncated coordinate, so `int(min(xs))` is the lower edge of the box of
      the truncated corners, and `int(max(xs))` its upper edge. */
  lemma {:induction false} TruncOfExtremes(xs: seq<real>)
    requires |xs| > 0
    ensures forall i :: 0 <= i < |xs| ==> Trunc(Min(xs)) <= Trunc(xs[i]) <= Trunc(Max(xs))
    ensures exists i :: 0 <= i < |xs| && Trunc(Min(xs)) == Trunc(xs[i])
    ensures exists i :: 0 <= i < |xs| && Trunc(Max(xs)) == Trunc(xs[i])
  {
    forall i | 0 <= i < |xs|
      ensures Trunc(Min(xs)) <= Trunc(xs[i]) <= Trunc(Max(xs))
    {
      TruncMonotone(Min(xs), xs[i]);
      TruncMonotone(xs[i], Max(xs));
    }
    var lo :| 0 <= lo < |xs| && xs[lo] == Min(xs);
    assert Trunc(Min(xs)) == Trunc(xs[lo]);
    var hi :| 0 <= hi < |xs| && xs[hi] == Max(xs);
    assert Trunc(Max(xs)) == Trunc(xs[hi]);
  }

  /** The corners' bounding box, widened by `Margin`, clamped to the
      `w x h` image. */
  function PixelRegion(pts: seq<PixelPoint>, w: nat, h: nat): (r: Region)
    requires |pts| > 0
    ensures 0 <= r.minX && r.maxX <= w
    ensures 0 <= r.minY && r.maxY <= h
  {
    Region(MaxInt(0, Trunc(Min(Xs(pts))) - Margin),
           MinInt(w, Trunc(Max(Xs(pts))) + Margin),
           MaxInt(0, Trunc(Min(Ys(pts))) - Margin),
           MinInt(h, Trunc(Max(Ys(pts))) + Margin))
  }

  /** Where no clamping bites, the region is exactly the box of truncated
      corner coordinates widened by `Margin` on every side. */
  lemma UnclampedRegion(pts: seq<PixelPoint>, w: nat, h: nat)
    requires |pts| > 0
    requires Margin <= Trunc(Min(Xs(pts))) && Trunc(Max(Xs(pts))) + Margin <= w
    requires Margin <= Trunc(Min(Ys(pts))) && Trunc(Max(Ys(pts))) + Margin <= h
    ensures var r := PixelRegion(pts, w, h);
      r.minX == Trunc(Min(Xs(pts))) - Margin && r.maxX == Trunc(Max(Xs(pts))) + Margin &&
      r.minY == Trunc(Min(Ys(pts))) - Margin && r.maxY == Trunc(Max(Ys(pts))) + Margin
  {
  }

  /** Every corner keeps at least `Margin` pixels of clearance inside the
      region on every side, except where the image edge cuts it off; in
      particular a corner whose truncated coordinates lie inside the image
      lies inside the region. */
  lemma {:induction false} RegionCoversCorners(pts: seq<PixelPoint>, w: nat, h: nat, k: int)
    requires 0 <= k < |pts|
    ensures var r := PixelRegion(pts, w, h);
      var cx, cy := Trunc(pts[k].x), Trunc(pts[k].y);
      r.minX <= MaxInt(0, cx - Margin) && MinInt(w, cx + Margin) <= r.maxX &&
      r.minY <= MaxInt(0, cy - Margin) && MinInt(h, cy + Margin) <= r.maxY &&
      (0 <= cx < w ==> r.minX <= cx < r.maxX) &&
      (0 <= cy < h ==> r.minY <= cy < r.maxY)
  {
    TruncOfExtremes(Xs(pts));
    TruncOfExtremes(Ys(pts));
    assert Xs(pts)[k] == pts[k].x && Ys(pts)[k] == pts[k].y;
  }

  /** `arr[minY:maxY, minX:maxX]` for a box inside the array. */
  function Slice<T>(g: Grid<T>, r: Region): (s: Grid<T>)
    requires g.Valid()
    requires 0 <= r.minY <= r.maxY <= g.height && 0 <= r.minX <= r.maxX <= g.width
    ensures s.Valid() && s.height == r.maxY - r.minY && s.width == r.maxX - r.minX
    ensures forall i, j :: 0 <= i < s.height && 0 <= j < s.width ==>
      s.cells[i][j] == g.cells[r.minY + i][r.minX + j]
  {
    Grid(r.maxY - r.minY, r.maxX - r.minX,
         seq(r.maxY - r.minY, i requires 0 <= i < r.maxY - r.minY => g.cells[r.minY + i][r.minX .. r.maxX]))
  }

  /** Whether the clamped region is a crop the cropper hands out: non-empty on
      both axes and at least `MinSize` on each side. The size test alone
      decides it, since a side of `MinSize` is never empty. */
  predicate Usable(r: Region): (ok: bool)
    ensures ok <==> MinSize <= r.maxX - r.minX && MinSize <= r.maxY - r.minY
  {
    r.minX < r.maxX && r.minY < r.maxY && r.maxX - r.minX >= MinSize && r.maxY - r.minY >= MinSize
  }

  /** `crop_to_sky_region`: the image is the exposure's pixel array and
      `skyToPixel` its coordinate mapping. */
  function CropToSkyRegion<S, T>(image: Grid<T>, skyToPixel: S -> PixelPoint, skyCorners: seq<S>)
    : (res: Option<Grid<T>>)
    requires image.Valid() && |skyCorners| > 0
    ensures var pts := Corners(skyToPixel, skyCorners);
      var r := PixelRegion(pts, image.width, image.height);
      (res.Some? <==> Usable(r)) &&
      (r.minX >= r.maxX || r.minY >= r.maxY ==> res.None?) &&
      (res.Some? ==>
        res.value.Valid() &&
        res.value.height == r.maxY - r.minY >= MinSize &&
        res.value.width == r.maxX - r.minX >= MinSize &&
        forall i, j :: 0 <= i < res.value.height && 0 <= j < res.value.width ==>
          res.value.cells[i][j] == image.cells[r.minY + i][r.minX + j])
  {
    var pts := Corners(skyToPixel, skyCorners);
    var r := PixelRegion(pts, image.width, image.height);
    if r.minX >= r.maxX || r.minY >= r.maxY then None
    else
      var crop := Slice(image, r);
      if crop.height < MinSize || crop.width < MinSize then None
      else Some(crop)
  }

  /** A box of corners `[10, 20] x [10, 20]` in a 2000 x 2000 image clamps to
      `[0, 70) x [0, 70)`, which is below `MinSize`, so nothing is cropped. */
  lemma SmallCornerBoxRejected<S, T>(image: Grid<T>, skyToPixel: S -> PixelPoint, a: S, b: S)
    requires image.Valid() && image.height == 2000 && image.width == 2000
    requires skyToPixel(a) == PixelPoint(10.0, 10.0) && skyToPixel(b) == PixelPoint(20.0, 20.0)
    ensures var pts := [skyToPixel(a), skyToPixel(b)];
      PixelRegion(pts, 2000, 2000) == Region(0, 70, 0, 70)
    ensures CropToSkyRegion(image, skyToPixel, [a, b]).None?
  {
    var pts := seq(2, i requires 0 <= i < 2 => skyToPixel([a, b][i]));
    assert pts == [PixelPoint(10.0, 10.0), PixelPoint(20.0, 20.0)];
    assert Xs(pts) == [10.0, 20.0] && Ys(pts) == [10.0, 20.0];
    assert Min([10.0, 20.0]) == 10.0 && Max([10.0, 20.0]) == 20.0;
  }

  /** A polygon wholly left of the image (every corner at `x < 0`) leaves at
      most `Margin` columns after clamping, fewer than `MinSize`: no crop. */
  lemma {:induction false} LeftOfImageRejected<S, T>(image: Grid<T>, skyToPixel: S -> PixelPoint, skyCorners: seq<S>)
    requires image.Valid() && |skyCorners| > 0
    requires forall k :: 0 <= k < |skyCorners| ==> skyToPixel(skyCorners[k]).x < 0.0
    ensures CropToSkyRegion(image, skyToPixel, skyCorners).None?
  {
    var pts := Corners(skyToPixel, skyCorners);
    var k :| 0 <= k < |pts| && Xs(pts)[k] == Max(Xs(pts));
    assert Max(Xs(pts)) < 0.0;
    assert Trunc(Max(Xs(pts))) <= 0;
  }

  /** A polygon wholly right of the image (every corner at `x >= width`)
      leaves at most `Margin` columns after clamping: no crop. */
  lemma {:induction false} RightOfImageRejected<S, T>(image: Grid<T>, skyToPixel: S -> PixelPoint, skyCorners: seq<S>)
    requires image.Valid() && |skyCorners| > 0
    requires forall k :: 0 <= k < |skyCorners| ==> image.width as real <= skyToPixel(skyCorners[k]).x
    ensures CropToSkyRegion(image, skyToPixel, skyCorners).None?
  {
    var pts := Corners(skyToPixel, skyCorners);
    var k :| 0 <= k < |pts| && Xs(pts)[k] == Min(Xs(pts));
    assert image.width as real <= Min(Xs(pts));
    assert image.width <= Trunc(Min(Xs(pts)));
  }

  /** A polygon wholly above the image (every corner at `y < 0`): no crop. */
  lemma {:induction false} AboveImageRejected<S, T>(image: Grid<T>, skyToPixel: S -> PixelPoint, skyCorners: seq<S>)
    requires image.Valid() && |skyCorners| > 0
    requires forall k :: 0 <= k < |skyCorners| ==> skyToPixel(skyCorners[k]).y < 0.0
    ensures CropToSkyRegion(image, skyToPixel, skyCorners).None?
  {
    var pts := Corners(skyToPixel, skyCorners);
    var k :| 0 <= k < |pts| && Ys(pts)[k] == Max(Ys(pts));
    assert Max(Ys(pts)) < 0.0;
    assert Trunc(Max(Ys(pts))) <= 0;
  }

  /** A polygon wholly below the image (every corner at `y >= height`): no
      crop. */
  lemma {:induction false} BelowImageRejected<S, T>(image: Grid<T>, skyToPixel: S -> PixelPoint, skyCorners: seq<S>)
    requires image.Valid() && |skyCorners| > 0
    requires forall k :: 0 <= k < |skyCorners| ==> image.height as real <= skyToPixel(skyCorners[k]).y
    ensures CropToSkyRegion(image, skyToPixel, skyCorners).None?
  {
    var pts := Corners(skyToPixel, skyCorners);
    var k :| 0 <= k < |pts| && Ys(pts)[k] == Min(Ys(pts));
    assert image.height as real <= Min(Ys(pts));
    assert image.height <= Trunc(Min(Ys(pts)));
  }
}
