/**
 * Scale-to-cover arithmetic (booth.py, get_resize_transform) and the centred
 * crop box taken from the scaled image when the strip is composited.
 * Python floats are modelled as exact reals; `int()` of a positive value is
 * its floor.
 */
module Geometry {
  /** A (width, height) pair of pixel counts. */
  datatype Dims = Dims(w: int, h: int)

  predicate Positive(d: Dims)
  {
    d.w > 0 && d.h > 0
  }

  /** What get_resize_transform returns: the size to scale to and the excess to crop. */
  datatype Transform = Transform(dims: Dims, crop: Dims)

  /** A PIL crop box: left, upper, right, lower, right and lower exclusive. */
  datatype Box = Box(left: int, upper: int, right: int, lower: int)

  /** Python's `max` of two values: the first one unless the second is greater. */
  function Max(a: real, b: real): (m: real)
    ensures m >= a && m >= b && (m == a || m == b)
  {
    if b > a then b else a
  }

  /** Scaling `c` pixels by `desired / c` gives back exactly `desired`. */
  lemma ScaleBack(c: int, desired: int)
    requires c > 0
    ensures c as real * (desired as real / c as real) == desired as real
  {
  }

  /** Scaling a positive length by a larger factor gives a length at least as large. */
  lemma ScaleMonotone(c: int, s: real, t: real)
    requires c > 0 && s >= t
    ensures c as real * s >= c as real * t
  {
  }

  /**
   * get_resize_transform: scale by the larger of the two per-axis ratios, so
   * that the image covers the target on both axes, truncate the scaled size,
   * and crop the excess. The scaled size never falls short of the target, the
   * axis that decided the scale is not cropped at all, and the crop is the
   * excess of the scaled size over the target.
   */
  function ResizeTransform(current: Dims, desired: Dims): (t: Transform)
    requires Positive(current) && Positive(desired)
    ensures t.dims.w >= desired.w && t.dims.h >= desired.h
    ensures t.crop.w == t.dims.w - desired.w && t.crop.h == t.dims.h - desired.h
    ensures t.crop.w >= 0 && t.crop.h >= 0
    ensures t.crop.w == 0 || t.crop.h == 0
  {
    var wRatio := desired.w as real / current.w as real;
    var hRatio := desired.h as real / current.h as real;
    var scale := Max(wRatio, hRatio);
    ScaleBack(current.w, desired.w);
    ScaleBack(current.h, desired.h);
    ScaleMonotone(current.w, scale, wRatio);
    ScaleMonotone(current.h, scale, hRatio);
    var dims := Dims((current.w as real * scale).Floor, (current.h as real * scale).Floor);
    Transform(dims, Dims(dims.w - desired.w, dims.h - desired.h))
  }

  /** An image that already has the target size is neither scaled nor cropped. */
  lemma ResizeIdentity(d: Dims)
    requires Positive(d)
    ensures ResizeTransform(d, d) == Transform(d, Dims(0, 0))
  {
    ScaleBack(d.w, d.w);
    ScaleBack(d.h, d.h);
  }

  /** `int()` of an exact non-negative quotient of ints is floor division. */
  lemma FloorDiv(a: int, b: int)
    requires a >= 0 && b > 0
    ensures (a as real / b as real).Floor == a / b
  {
    var q, r := a / b, a % b;
    var x := a as real / b as real;
    assert x * b as real == a as real;
    assert q as real * b as real <= a as real;
    assert a as real < (q + 1) as real * b as real;
    assert q as real <= x by {
      if q as real > x {
        ScaleMonotone(b, q as real, x);
      }
    }
    assert x < (q + 1) as real by {
      if x >= (q + 1) as real {
        ScaleMonotone(b, x, (q + 1) as real);
      }
    }
  }

  /** Comparing the two per-axis ratios is comparing the cross products of the sizes. */
  lemma RatioOrder(current: Dims, desired: Dims)
    requires Positive(current) && Positive(desired)
    ensures desired.w * current.h >= desired.h * current.w
        <==> desired.w as real / current.w as real >= desired.h as real / current.h as real
  {
    var cw, ch := current.w as real, current.h as real;
    var wr, hr := desired.w as real / cw, desired.h as real / ch;
    assert wr * cw == desired.w as real;
    assert hr * ch == desired.h as real;
    assert (desired.w * current.h) as real == wr * (cw * ch);
    assert (desired.h * current.w) as real == hr * (cw * ch);
    assert cw * ch > 0.0;
  }

  /** Scaling a length by a ratio of ints is one exact quotient. */
  lemma ScaleByRatio(len: int, num: int, den: int)
    requires den > 0
    ensures len as real * (num as real / den as real) == (len * num) as real / den as real
  {
  }

  /**
   * When the width ratio is the larger one, the width is scaled exactly onto
   * the target width and the height is the original height times the same
   * ratio, truncated: the image keeps its proportions.
   */
  lemma WidthDecides(current: Dims, desired: Dims)
    requires Positive(current) && Positive(desired)
    requires desired.w * current.h >= desired.h * current.w
    ensures ResizeTransform(current, desired).dims == Dims(desired.w, (current.h * desired.w) / current.w)
  {
    RatioOrder(current, desired);
    ScaleBack(current.w, desired.w);
    ScaleByRatio(current.h, desired.w, current.w);
    FloorDiv(current.h * desired.w, current.w);
  }

  /**
   * When the height ratio is the larger one, the height is scaled exactly onto
   * the target height and the width is the original width times the same
   * ratio, truncated.
   */
  lemma HeightDecides(current: Dims, desired: Dims)
    requires Positive(current) && Positive(desired)
    requires desired.w * current.h < desired.h * current.w
    ensures ResizeTransform(current, desired).dims == Dims((current.w * desired.h) / current.h, desired.h)
  {
    RatioOrder(current, desired);
    ScaleBack(current.h, desired.h);
    ScaleByRatio(current.w, desired.h, current.h);
    FloorDiv(current.w * desired.h, current.h);
  }

  /**
   * The box the compositor crops with: it starts half the excess in on each
   * axis (floor division of ints) and spans exactly the piece size. With a
   * non-negative excess it lies inside the scaled image of size
   * `piece + crop`, and is centred in it to within one pixel.
   */
  function CropBox(crop: Dims, piece: Dims): (b: Box)
    ensures b.right - b.left == piece.w && b.lower - b.upper == piece.h
    ensures crop.w >= 0 ==> 0 <= b.left && b.right <= piece.w + crop.w
    ensures crop.h >= 0 ==> 0 <= b.upper && b.lower <= piece.h + crop.h
    ensures 0 <= (piece.w + crop.w - b.right) - b.left <= 1
    ensures 0 <= (piece.h + crop.h - b.lower) - b.upper <= 1
  {
    Box(crop.w / 2, crop.h / 2, piece.w + crop.w / 2, piece.h + crop.h / 2)
  }

  /**
   * Scaling to cover and then cropping the centred box yields exactly the
   * target size, taken from inside the scaled image.
   */
  lemma CoverThenCrop(current: Dims, desired: Dims)
    requires Positive(current) && Positive(desired)
    ensures var t := ResizeTransform(current, desired);
      var b := CropBox(t.crop, desired);
      && b.right - b.left == desired.w && b.lower - b.upper == desired.h
      && 0 <= b.left && b.right <= t.dims.w
      && 0 <= b.upper && b.lower <= t.dims.h
  {
  }
}
