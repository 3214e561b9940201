# Sky-image pair preparation: cropper, normaliser and alignment proof

This project is a Dafny model of `sr/utils.py` from an LSST image-comparison
toolkit. The file has three routines.

- `crop_to_sky_region` projects the corners of a sky polygon into an
  exposure's pixel grid and truncates them with Python `int()`. It takes their
  bounding box, widens it by 50 pixels, clamps it to the image and slices the
  pixel array. It returns `None` when the region is empty or a side is
  shorter than 100 pixels.
- `simple_norm` cleans NaNs, stretches the 1st–99.5th percentile range to
  `[0, 255]` and casts to `uint8`. If `max(h, w)` exceeds `max_dim`, it picks a
  down-scaling factor and a target shape. It returns a `1 x 1 x H x W` tensor,
  the byte image and the scale.
- `make_rgb_proof` builds an `h x w x 3` byte image: red is image A, green is
  image B, blue is zero.

Files:

- `images.dfy` (module `Images`): optional results, the `byte` type, rectangular
  grids (a 2-D numpy array as rows plus its shape), and `Trunc`, which is
  Python `int()` on a real.
- `arith.dfy` (module `Arith`): non-linear arithmetic helper lemmas.
- `sky_crop.dfy` (module `SkyCrop`): the cropper. It is pure, so it is written
  as functions and lemmas.
- `normalize.dfy` (module `Normalize`): the arithmetic skeleton of the
  normaliser, as functions over exact reals and integers.
- `rgb_proof.dfy` (module `RgbProof`): the compositor. It is imperative: it
  allocates a zeroed `array3<byte>` and fills channels 0 and 1 in place with
  nested loops.

The model sits beside external pieces, which it takes as parameters:

- The exposure's WCS projection (`wcs.skyToPixel`) is the function parameter
  `skyToPixel`.
- `np.percentile` gives the two values `vmin` and `vmax`, which are passed in.
- `cv2.resize` is the function parameter `resize`. The model states which
  target size `(new_w, new_h)` it is called with.

## Behaviour of the code worth knowing

- A small corner box is not widened to the minimum size. Corners at
  `(10, 10)` and `(20, 20)` on a 2000 x 2000 image clamp to the box
  `[0,70) x [0,70)`, which is below 100 on both sides, so the cropper returns
  `None`. `SkyCrop.SmallCornerBoxRejected` proves this.
- Downscaled sides are truncated, not rounded: `int(side * scale)`.
  `Normalize.DownscaleShape` proves that in exact arithmetic this is
  `side * max_dim / max(h, w)` rounded down.
- A polygon wholly outside the image may still leave a non-empty clamped box
  (corners at x = 1010 and 1020 on a 1000-wide image give columns
  `[960, 1000)`). It is rejected only by the size test, because the margin (50)
  is smaller than the minimum size (100). `SkyCrop.LeftOfImageRejected` and its
  three siblings prove `None` for each side.
- The margin (50) and the minimum size (100) are fixed constants in the code
  (`SkyCrop.Margin` and `SkyCrop.MinSize` here). The normaliser has no guard
  against `vmax == vmin`.

## Model

| member | source | states |
|---|---|---|
| `Images.Trunc` | sr/utils.py:52-55 | Python `int()`: within 1 of its argument and never farther from zero (floor for non-negative values, ceiling for negative ones) |
| `Images.TruncMonotone` | sr/utils.py:52-55 | truncation keeps the order of two reals |
| `Images.MinInt` | sr/utils.py:52-55 | Python `min(a, b)`: no larger than either argument and equal to one of them |
| `Images.MaxInt` | sr/utils.py:52-55 | Python `max(a, b)`: no smaller than either argument and equal to one of them |
| `Images.TruncOfQuotient` | sr/utils.py:26 | `int(a / b)` on naturals is integer division `a / b` |
| `SkyCrop.Corners` | sr/utils.py:49 | `[wcs.skyToPixel(sky) for sky in sky_corners]`: one pixel position per sky corner, in order |
| `SkyCrop.Xs` | sr/utils.py:50 | `[p.getX() for p in pixel_points]`: one x coordinate per corner, in corner order |
| `SkyCrop.Ys` | sr/utils.py:51 | `[p.getY() for p in pixel_points]`: one y coordinate per corner, in corner order |
| `SkyCrop.Min` | sr/utils.py:52-55 | `min(xs)` on a non-empty list is one of its elements and no element is smaller |
| `SkyCrop.Max` | sr/utils.py:52-55 | `max(xs)` on a non-empty list is one of its elements and no element is larger |
| `SkyCrop.TruncOfExtremes` | sr/utils.py:52-55 | `int(min(xs))` is the smallest truncated corner coordinate and `int(max(xs))` is the largest; both are attained by a corner |
| `SkyCrop.PixelRegion` | sr/utils.py:52-55 | the margin-widened, clamped box satisfies `0 <= min_x`, `max_x <= w`, `0 <= min_y`, `max_y <= h` |
| `SkyCrop.UnclampedRegion` | sr/utils.py:49-55 | when no clamp bites, the box is exactly `[int(min xs) - 50, int(max xs) + 50) x [int(min ys) - 50, int(max ys) + 50)` |
| `SkyCrop.RegionCoversCorners` | sr/utils.py:49-55 | every corner has 50 pixels of clearance inside the box on each side, except where the image edge cuts it off; a corner whose truncated pixel position is inside the image is inside the box |
| `SkyCrop.Slice` | sr/utils.py:58 | `arr[min_y:max_y, min_x:max_x]` has shape `(max_y - min_y, max_x - min_x)` and `crop[i][j] == arr[min_y + i][min_x + j]` |
| `SkyCrop.Usable` | sr/utils.py:56-59 | a region is kept exactly when both sides are at least 100; the emptiness test of line 56 is implied by the size test |
| `SkyCrop.CropToSkyRegion` | sr/utils.py:35-61 | returns a crop exactly when the box is non-empty on both axes and at least 100 on each side; returns `None` when `min_x >= max_x` or `min_y >= max_y`; a crop has the box's shape and holds the source pixels at the box's offset |
| `SkyCrop.SmallCornerBoxRejected` | sr/utils.py:52-60 | corners `(10,10)` and `(20,20)` on a 2000 x 2000 image give the box `[0,70) x [0,70)`, and the result is `None` |
| `SkyCrop.LeftOfImageRejected` | sr/utils.py:44-60 | no overlap gives `None`: with every corner at `x < 0`, the clamped box keeps at most 50 columns, fewer than 100 |
| `SkyCrop.RightOfImageRejected` | sr/utils.py:44-60 | no overlap gives `None`: with every corner at `x >= w`, the clamped box keeps at most 50 columns, fewer than 100 |
| `SkyCrop.AboveImageRejected` | sr/utils.py:44-60 | no overlap gives `None`: with every corner at `y < 0`, the clamped box keeps at most 50 rows, fewer than 100 |
| `SkyCrop.BelowImageRejected` | sr/utils.py:44-60 | no overlap gives `None`: with every corner at `y >= h`, the clamped box keeps at most 50 rows, fewer than 100 |
| `Normalize.Clean` | sr/utils.py:20 | `nan_to_num(nan=0.0)`: NaN becomes 0 and finite values are kept |
| `Normalize.Clip` | sr/utils.py:22 | `np.clip(x, lo, hi)` lies in `[lo, hi]`, keeps values inside it, and sends values below `lo` to `lo` and values above `hi` to `hi` |
| `Normalize.Stretch` | sr/utils.py:22 | `clip((x - vmin) / (vmax - vmin), 0, 1) * 255` lies in `[0, 255]` |
| `Normalize.StretchEndpoints` | sr/utils.py:21-22 | with `vmin < vmax`: values `<= vmin` map to 0, values `>= vmax` map to 255, and values between map linearly |
| `Normalize.StretchMonotone` | sr/utils.py:22 | the stretch keeps the brightness order of pixels |
| `Normalize.ToByte` | sr/utils.py:27-29 | `astype(np.uint8)` on `[0, 255]` gives the byte at or just below the value (truncation) |
| `Normalize.NormalizedImage` | sr/utils.py:20-29 | the byte image has the input's shape; every byte is the truncation of the stretched cleaned pixel; NaN pixels become the byte of the stretched 0 |
| `Normalize.ScaledSide` | sr/utils.py:24-26 | for any side `n`, `int(n * (max_dim / m))` in exact arithmetic equals `n * max_dim / m` rounded down |
| `Normalize.ShrinkSide` | sr/utils.py:26 | `int(n * scale)` for a non-negative product: the integer at or just below `n * scale` |
| `Normalize.ScaleBelowOne` | sr/utils.py:24-25 | `max_dim / max(h, w) < 1.0` exactly when `max(h, w) > max_dim` |
| `Normalize.DownscalePlan` | sr/utils.py:23-30 | if `max(h, w) <= max_dim`: scale is exactly 1.0 and the shape is unchanged; otherwise scale is `max_dim / max(h, w)` and below 1 |
| `Normalize.DownscaleShape` | sr/utils.py:24-26 | when downscaling, `new_h == h * max_dim / max(h, w)` and `new_w == w * max_dim / max(h, w)`, both rounded down |
| `Normalize.ShrunkHeight` | sr/utils.py:24-26 | when downscaling, `new_h == h * max_dim / max(h, w)` rounded down |
| `Normalize.ShrunkWidth` | sr/utils.py:24-26 | when downscaling, `new_w == w * max_dim / max(h, w)` rounded down |
| `Normalize.DownscaleBounds` | sr/utils.py:24-30 | scale is in `(0, 1]`; no output side is larger than its input side or than `max_dim`; the longer output side is exactly `min(max(h, w), max_dim)` |
| `Normalize.ToTensor` | sr/utils.py:31 | the tensor has two leading dimensions of size 1 and the byte image's shape; each value is the byte divided by 255, so it lies in `[0, 1]` |
| `Normalize.SimpleNorm` | sr/utils.py:8-32 | the byte image is a grid no larger than the input or `max_dim` on either side, and its longer side is `min(max(h, w), max_dim)`; with no downscaling: scale 1.0 and the byte image is the normalised image, in the input's shape; with downscaling: scale `max_dim / max(h, w)`, and the byte image is the normalised image resized to `(w * max_dim / m, h * max_dim / m)` rounded down, with exactly that shape; the tensor is `1 x 1 x H x W` and holds the byte image divided by 255, in `[0, 1]` |
| `Normalize.SimpleNormShrinksWideImage` | sr/utils.py:23-31 | a 1500 x 2000 image with `max_dim = 1024` and a `resize` that returns a black image of the requested shape gives scale 0.512 and a 768 x 1024 byte image |
| `RgbProof.FillChannel` | sr/utils.py:72-73 | `proof[:, :, c] = src` sets channel `c` to `src` and leaves every other cell unchanged |
| `RgbProof.MakeRgbProof` | sr/utils.py:64-74 | returns a new `h x w x 3` array with `proof[i,j,0] == A[i,j]`, `proof[i,j,1] == B[i,j]`, `proof[i,j,2] == 0` |

## Left out

- Loading the exposure (`calexp.getWcs()`, `calexp.image.array`) and the FITS loaders in `src/utils.py`: file I/O through astropy and LSST code. src/utils.py is not part of this model.
- `SkyCrop.CropToSkyRegion`: requires at least one sky corner, as do `PixelRegion`, `Min` and `Max`. With an empty corner list Python's `min` and `max` raise `ValueError`; that error is not modelled.
- The WCS sky-to-pixel projection: an external floating-point transform, taken as the parameter `skyToPixel`.
- `int()` raising on NaN or infinite pixel coordinates: pixel coordinates are exact reals here.
- `np.percentile`: floating-point order statistics. `vmin` and `vmax` are parameters.
- `np.nan_to_num` on ±infinity (it maps them to huge finite values): pixels are finite reals or NaN here.
- `Normalize.Stretch`: requires `vmin != vmax`. numpy's result on a flat image (division by zero giving ±inf or NaN, then an unspecified `uint8` cast) is not modelled. `NormalizedImage` and `SimpleNorm` carry the same requirement.
- `Normalize.SimpleNorm`: requires a non-empty image, because `np.percentile` raises on an empty array. It also requires `max_dim > 0`, because otherwise the resize branch is always taken with a non-positive size, which `cv2.resize` refuses.
- `Normalize.SimpleNorm`: `cv2.resize` also refuses a zero target side. That can occur for an extreme aspect ratio, and the model does not report it as an error: it passes the zero size to `resize`.
- `Normalize.SimpleNorm`: `cv2.resize` with `INTER_AREA` is a foreign resampling routine. It is the parameter `resize`, and the model assumes only that, for non-negative sizes, it returns a grid of the requested shape `(new_h, new_w)`. Its pixel values are not modelled.
- `Normalize.DownscaleShape`, `Normalize.DownscalePlan`, `Normalize.ShrinkSide`, `Normalize.ShrunkHeight`, `Normalize.ShrunkWidth`, `Normalize.ScaledSide`: `max_dim / max(h, w)` and `int(w * scale)` are computed in exact arithmetic, not in IEEE doubles. In doubles `w * scale` can fall just below an integer: `int(1122 * (1024 / 1122))` is 1023, not 1024. For `max_dim = 1024`, 26368 of the values of `m` in `1025..199999` give a longer side of 1023. The program's sides can therefore be one pixel shorter than these lemmas state.
- `Normalize.DownscaleBounds`, `Normalize.SimpleNorm`: for the same reason, the statement that the longer output side is exactly `min(max(h, w), max_dim)` holds in exact arithmetic only. In the program it can be one pixel less.
- The torch tensor's dtype and device placement (`.float()`, `.to(device)`): the tensor is a nested sequence of reals.
- `RgbProof.MakeRgbProof`: requires both images to have the same shape. numpy broadcasting would also accept some other shapes of B, and `uint8` assignment would wrap non-byte inputs; both images are byte arrays here.
- The matplotlib and `lsst.geom` imports: display and environment dependencies with no logic.
