/** The arithmetic skeleton of the robust normaliser `simple_norm`: NaN
    cleaning, the clipped linear stretch to `[0, 255]`, the cast to 8 bits,
    the choice of the down-scaling factor and of the output shape, and the
    batch/channel-first tensor. Reals stand for floats throughout. */
module Normalize {
  import opened Images
  import opened Arith

  /** A raw float pixel: a finite value or NaN. */
  datatype Pixel = Value(v: real) | NaN

  /** `np.nan_to_num(..., nan=0.0)` on one pixel: NaN reads as zero signal. */
  function Clean(p: Pixel): (r: real)
    ensures p.Value? ==> r == p.v
    ensures p.NaN? ==> r == 0.0
  {
    match p
    case Value(v) => v
    case NaN => 0.0
  }

  /** `np.clip(x, lo, hi)`. */
  function Clip(x: real, lo: real, hi: real): (r: real)
    requires lo <= hi
    ensures lo <= r <= hi
    ensures lo <= x <= hi ==> r == x
    ensures x < lo ==> r == lo
    ensures hi < x ==> r == hi
  {
    if x < lo then lo else if hi < x then hi else x
  }

  /** `np.clip((x - vmin) / (vmax - vmin), 0, 1) * 255.0` on one pixel. */
  function Stretch(x: real, vmin: real, vmax: real): (r: real)
    requires vmin != vmax
    ensures 0.0 <= r <= 255.0
  {
    Clip((x - vmin) / (vmax - vmin), 0.0, 1.0) * 255.0
  }

  /** With `vmin < vmax` (the 1st percentile below the 99.5th), everything at
      or below `vmin` goes black, everything at or above `vmax` goes white, and
      values in between are mapped linearly. */
  lemma StretchEndpoints(x: real, vmin: real, vmax: real)
    requires vmin < vmax
    ensures x <= vmin ==> Stretch(x, vmin, vmax) == 0.0
    ensures vmax <= x ==> Stretch(x, vmin, vmax) == 255.0
    ensures vmin <= x <= vmax ==> Stretch(x, vmin, vmax) == (x - vmin) * 255.0 / (vmax - vmin)
  {
    var d := vmax - vmin;
    if x <= vmin {
      assert (x - vmin) / d <= 0.0;
    }
    if vmax <= x {
      QuotientAtLeastOne(x - vmin, d);
    }
  }

  /** The stretch never reverses the brightness order of two pixels. */
  lemma StretchMonotone(x: real, y: real, vmin: real, vmax: real)
    requires vmin < vmax && x <= y
    ensures Stretch(x, vmin, vmax) <= Stretch(y, vmin, vmax)
  {
    var d := vmax - vmin;
    assert (y - vmin) / d - (x - vmin) / d == (y - x) / d;
    assert (x - vmin) / d <= (y - vmin) / d;
  }

  /** `.astype(np.uint8)` on a value already in `[0, 255]`: truncation. */
  function ToByte(v: real): (b: byte)
    requires 0.0 <= v <= 255.0
    ensures b as real <= v < b as real + 1.0
  {
    Trunc(v) as byte
  }

  /** `norm.astype(np.uint8)`: the cleaned, stretched image cast to bytes. */
  function NormalizedImage(img: Grid<Pixel>, vmin: real, vmax: real): (r: Grid<byte>)
    requires img.Valid() && vmin != vmax
    ensures r.Valid() && r.height == img.height && r.width == img.width
    ensures forall i, j :: 0 <= i < r.height && 0 <= j < r.width ==>
      r.cells[i][j] as real <= Stretch(Clean(img.cells[i][j]), vmin, vmax) < r.cells[i][j] as real + 1.0
    ensures forall i, j :: 0 <= i < r.height && 0 <= j < r.width && img.cells[i][j].NaN? ==>
      r.cells[i][j] == ToByte(Stretch(0.0, vmin, vmax))
  {
    Grid(img.height, img.width,
         seq(img.height, i requires 0 <= i < img.height =>
           seq(img.width, j requires 0 <= j < img.width =>
             ToByte(Stretch(Clean(img.cells[i][j]), vmin, vmax)))))
  }

  /** The scale factor and the target shape `(newH, newW)`. */
  datatype Plan = Plan(scale: real, newH: int, newW: int)

  /** `int(n * scale)` with `scale = max_dim / m`, computed in exact
      arithmetic, is integer division of `n * max_dim` by `m`. */
  lemma ScaledSide(n: nat, maxDim: nat, m: nat)
    requires 0 < m
    ensures ShrinkSide(n, maxDim as real / m as real) == (n * maxDim) / m
  {
    var scale := maxDim as real / m as real;
    var r := (n * maxDim) as real / m as real;
    DivTimes(maxDim as real, m as real);
    DivTimes((n * maxDim) as real, m as real);
    assert (n as real * scale - r) * m as real == 0.0;
    ProductSign(n as real * scale - r, m as real);
    TruncOfQuotient(n * maxDim, m);
  }

  /** `int(n * scale)`: one side of the shrunk image, the integer at or just
      below the non-negative product. */
  function ShrinkSide(n: nat, scale: real): (t: int)
    ensures 0.0 <= n as real * scale ==> t as real <= n as real * scale < t as real + 1.0
  {
    Trunc(n as real * scale)
  }

  /** `max_dim / m < 1.0` exactly when `m` exceeds `max_dim`. */
  lemma ScaleBelowOne(maxDim: int, m: nat)
    requires 0 < m
    ensures (maxDim as real / m as real < 1.0) <==> maxDim < m
  {
    var q := maxDim as real / m as real;
    DivTimes(maxDim as real, m as real);
    assert (1.0 - q) * m as real == (m - maxDim) as real;
    ProductSign(1.0 - q, m as real);
  }

  /** Lines 23-30 of `simple_norm`: `scale = max_dim / max(h, w)`; below 1 the
      image is to be resized to `(int(h * scale), int(w * scale))`, otherwise
      the scale is reset to exactly 1 and the shape kept. */
  function DownscalePlan(h: nat, w: nat, maxDim: int): (p: Plan)
    requires 0 < h && 0 < w && 0 < maxDim
    ensures MaxInt(h, w) <= maxDim ==> p == Plan(1.0, h, w)
    ensures maxDim < MaxInt(h, w) ==> p.scale == maxDim as real / MaxInt(h, w) as real && p.scale < 1.0
    ensures maxDim < MaxInt(h, w) ==> p.newH == ShrinkSide(h, p.scale) && p.newW == ShrinkSide(w, p.scale)
  {
    var m := MaxInt(h, w);
    var scale := maxDim as real / m as real;
    ScaleBelowOne(maxDim, m);
    if scale < 1.0 then
      Plan(scale, ShrinkSide(h, scale), ShrinkSide(w, scale))
    else
      Plan(1.0, h, w)
  }

  /** When the image is shrunk, each side becomes `side * max_dim / max(h, w)`
      rounded down. */
  lemma DownscaleShape(h: nat, w: nat, maxDim: int)
    requires 0 < h && 0 < w && 0 < maxDim < MaxInt(h, w)
    ensures var p := DownscalePlan(h, w, maxDim);
      p.newH == (h * maxDim) / MaxInt(h, w) && p.newW == (w * maxDim) / MaxInt(h, w)
  {
    ShrunkHeight(h, w, maxDim);
    ShrunkWidth(h, w, maxDim);
  }

  lemma ShrunkHeight(h: nat, w: nat, maxDim: int)
    requires 0 < h && 0 < w && 0 < maxDim < MaxInt(h, w)
    ensures DownscalePlan(h, w, maxDim).newH == (h * maxDim) / MaxInt(h, w)
  {
    var p := DownscalePlan(h, w, maxDim);
    ScaledSide(h, maxDim, MaxInt(h, w));
  }

  lemma ShrunkWidth(h: nat, w: nat, maxDim: int)
    requires 0 < h && 0 < w && 0 < maxDim < MaxInt(h, w)
    ensures DownscalePlan(h, w, maxDim).newW == (w * maxDim) / MaxInt(h, w)
  {
    var p := DownscalePlan(h, w, maxDim);
    ScaledSide(w, maxDim, MaxInt(h, w));
  }

  /** The plan never enlarges the image and never exceeds `maxDim` on a
      side; its longer side is exactly `min(max(h, w), maxDim)`. */
  lemma DownscaleBounds(h: nat, w: nat, maxDim: int)
    requires 0 < h && 0 < w && 0 < maxDim
    ensures var p := DownscalePlan(h, w, maxDim);
      0.0 < p.scale <= 1.0 &&
      0 <= p.newH <= h && 0 <= p.newW <= w &&
      p.newH <= maxDim && p.newW <= maxDim &&
      MaxInt(p.newH, p.newW) == MinInt(MaxInt(h, w), maxDim)
  {
    var m := MaxInt(h, w);
    if maxDim < m {
      DownscaleShape(h, w, maxDim);
      DivTimes(maxDim as real, m as real);
      ProductSign(maxDim as real / m as real, m as real);
      MulMonotone(h, m, maxDim);
      MulMonotone(w, m, maxDim);
      MulMonotone(maxDim, m, h);
      MulMonotone(maxDim, m, w);
      DivMonotone(h * maxDim, m * maxDim, m);
      DivMonotone(w * maxDim, m * maxDim, m);
      DivMonotone(h * maxDim, h * m, m);
      DivMonotone(w * maxDim, w * m, m);
      DivCancel(maxDim, m);
      DivCancel(h, m);
      DivCancel(w, m);
    }
  }

  /** `torch.from_numpy(small / 255.)[None, None]`: one sample, one channel,
      every value the byte divided by 255. */
  function ToTensor(small: seq<seq<byte>>): (t: seq<seq<seq<seq<real>>>>)
    ensures |t| == 1 && |t[0]| == 1 && |t[0][0]| == |small|
    ensures forall i :: 0 <= i < |small| ==> |t[0][0][i]| == |small[i]|
    ensures forall i, j :: 0 <= i < |small| && 0 <= j < |small[i]| ==>
      0.0 <= t[0][0][i][j] <= 1.0 && t[0][0][i][j] * 255.0 == small[i][j] as real
  {
    [[seq(|small|, i requires 0 <= i < |small| =>
        seq(|small[i]|, j requires 0 <= j < |small[i]| => small[i][j] as real / 255.0))]]
  }

  /** What `simple_norm` returns: the tensor, the 8-bit image and the scale. */
  datatype NormalizedProduct = NormalizedProduct(tensor: seq<seq<seq<seq<real>>>>, small: Grid<byte>, scale: real)

  /** `simple_norm`, with the two percentiles given as `vmin` and `vmax` and
      `cv2.resize(image, (new_w, new_h))` given as `resize`, of which only
      the shape of its result, `(new_h, new_w)`, is known. */
  function SimpleNorm(img: Grid<Pixel>, vmin: real, vmax: real, maxDim: int,
                      resize: (Grid<byte>, int, int) -> Grid<byte>): (out: NormalizedProduct)
    requires img.Valid() && 0 < img.height && 0 < img.width && 0 < maxDim && vmin != vmax
    requires forall g, nw, nh :: 0 <= nw && 0 <= nh ==>
      (resize(g, nw, nh).Valid() && resize(g, nw, nh).height == nh && resize(g, nw, nh).width == nw)
    ensures var m := MaxInt(img.height, img.width);
      var norm := NormalizedImage(img, vmin, vmax);
      out.small.Valid() && out.small.height <= maxDim && out.small.width <= maxDim &&
      out.small.height <= img.height && out.small.width <= img.width &&
      MaxInt(out.small.height, out.small.width) == MinInt(m, maxDim) &&
      (m <= maxDim ==> out.scale == 1.0 && out.small == norm &&
                       out.small.height == img.height && out.small.width == img.width) &&
      (maxDim < m ==> out.scale == maxDim as real / m as real &&
                      out.small == resize(norm, (img.width * maxDim) / m, (img.height * maxDim) / m) &&
                      out.small.height == (img.height * maxDim) / m &&
                      out.small.width == (img.width * maxDim) / m)
    ensures |out.tensor| == 1 && |out.tensor[0]| == 1 && |out.tensor[0][0]| == out.small.height &&
      (forall i :: 0 <= i < out.small.height ==> |out.tensor[0][0][i]| == out.small.width) &&
      forall i, j :: 0 <= i < out.small.height && 0 <= j < out.small.width ==>
        0.0 <= out.tensor[0][0][i][j] <= 1.0 &&
        out.tensor[0][0][i][j] * 255.0 == out.small.cells[i][j] as real
  {
    var norm := NormalizedImage(img, vmin, vmax);
    var plan := DownscalePlan(img.height, img.width, maxDim);
    DownscaleBounds(img.height, img.width, maxDim);
    var small := if plan.scale < 1.0 then
                   DownscaleShape(img.height, img.width, maxDim);
                   resize(norm, plan.newW, plan.newH)
                 else norm;
    NormalizedProduct(ToTensor(small.cells), small, plan.scale)
  }

  /** A 2000-wide, 1500-high exposure with `max_dim = 1024` is shrunk by
      0.512 to a 1024 x 768 byte image, whatever `resize` does to the pixels,
      as long as it returns the shape it is asked for; here it returns a
      black image of that shape. */
  lemma SimpleNormShrinksWideImage(img: Grid<Pixel>)
    requires img.Valid() && img.height == 1500 && img.width == 2000
    ensures var out := SimpleNorm(img, 0.0, 1.0, 1024, (g, nw, nh) => Blank(nw, nh));
      out.scale == 0.512 && out.small.height == 768 && out.small.width == 1024
  {
  }

  /** A black byte image of shape `(nh, nw)`, or an empty one for a negative
      size: a resampler that keeps only the requested shape. */
  function Blank(nw: int, nh: int): (g: Grid<byte>)
    ensures 0 <= nw && 0 <= nh ==> g.Valid() && g.height == nh && g.width == nw
  {
    if 0 <= nw && 0 <= nh then Grid(nh, nw, seq(nh, _ => seq(nw, _ => 0 as byte))) else Grid(0, 0, [])
  }
}
