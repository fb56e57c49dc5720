/**
 The gradient generator: red rises from 0 at the left edge to 255 at the
 right edge, green from 0 at the top to 255 at the bottom, blue is a constant
 128.  Both ramps use truncating integer division.
 */
module Gradient {
  import opened Raster

  /** The constant blue channel. */
  const BlueLevel: bv8 := 128

  /**
   Intensity of step `v` of a ramp of `span` steps: `v * 255 / span`.  Both
   operands are non-negative, so Dafny's division is the C truncating one.
   */
  function Level(v: nat, span: nat): nat
    requires span > 0
  {
    v * 255 / span
  }

  /** Colour of pixel (x, y) of a W x H gradient, with the `(unsigned char)` casts of `make_gradient`. */
  function GradientPixel(W: nat, H: nat, x: nat, y: nat): Rgb
    requires W > 1 && H > 1
  {
    Rgb(ToByte(Level(x, W - 1)), ToByte(Level(y, H - 1)), BlueLevel)
  }

  /**
   `make_gradient` divides by `W - 1` and `H - 1` once per pixel, so it is
   defined exactly when the image has no pixel or both sides are at least 2.
   */
  predicate DivisorsNonZero(W: nat, H: nat) {
    W == 0 || H == 0 || (W > 1 && H > 1)
  }

  /**
   The products `x * 255` and `y * 255` are computed in a C `int` without
   overflow; with no pixel to visit they are never computed at all.
   */
  predicate LevelsFitInt(W: nat, H: nat) {
    W == 0 || H == 0 || ((W - 1) * 255 <= IntMax && (H - 1) * 255 <= IntMax)
  }

  /** The gradient image of a W x H buffer. */
  function GradientImage(W: nat, H: nat): seq<bv8>
    requires DivisorsNonZero(W, H)
  {
    if W > 1 && H > 1 then Render(W, H, (x: nat, y: nat) => GradientPixel(W, H, x, y)) else []
  }

  /**
   Fills the first `BufferSize(W, H)` bytes of `buf` with the gradient.  When
   the image has no pixel the loops of `make_gradient` never run and the buffer is
   returned as it was.
   */
  method MakeGradient(buf: seq<bv8>, W: nat, H: nat) returns (img: seq<bv8>)
    requires BufferSize(W, H) <= |buf|
    requires FitsInt(W, H) && LevelsFitInt(W, H)
    requires DivisorsNonZero(W, H)
    ensures |img| == |buf|
    ensures img[..BufferSize(W, H)] == GradientImage(W, H)
    ensures img[BufferSize(W, H)..] == buf[BufferSize(W, H)..]
    ensures forall x: nat, y: nat :: x < W && y < H ==>
      && ReadPixel(img, W, H, x, y).r as int == x * 255 / (W - 1)
      && ReadPixel(img, W, H, x, y).g as int == y * 255 / (H - 1)
      && ReadPixel(img, W, H, x, y).b == 128
  {
    if W > 1 && H > 1 {
      img := Fill(buf, W, H, (x: nat, y: nat) => GradientPixel(W, H, x, y));
      forall x: nat, y: nat | x < W && y < H
        ensures ReadPixel(img, W, H, x, y).r as int == x * 255 / (W - 1)
        ensures ReadPixel(img, W, H, x, y).g as int == y * 255 / (H - 1)
      {
        GradientChannels(W, H, x, y);
      }
    } else {
      img := buf;
    }
  }

  /** `Level` is the truncated quotient: the largest q with q * span <= v * 255. */
  lemma LevelIsTruncation(v: nat, span: nat)
    requires span > 0
    ensures Level(v, span) * span <= v * 255 < (Level(v, span) + 1) * span
  {
  }

  /** Along a ramp of `span` steps every level lies in 0..255. */
  lemma LevelInRange(v: nat, span: nat)
    requires 0 < span && v <= span
    ensures 0 <= Level(v, span) <= 255
  {
    var q := Level(v, span);
    LevelIsTruncation(v, span);
    assert 0 <= q;
    assert v * 255 <= span * 255 < 256 * span;
    assert q * span < 256 * span;
    MulLessCancel(q, 256, span);
  }

  /** The ramp starts at 0 and ends at exactly 255. */
  lemma LevelEndpoints(span: nat)
    requires span > 0
    ensures Level(0, span) == 0
    ensures Level(span, span) == 255
  {
    DivModOf(span * 255, span, 255, 0);
  }

  /** The ramp never decreases. */
  lemma LevelMonotone(v: nat, v': nat, span: nat)
    requires span > 0 && v <= v'
    ensures Level(v, span) <= Level(v', span)
  {
    var q, q' := Level(v, span), Level(v', span);
    LevelIsTruncation(v, span);
    LevelIsTruncation(v', span);
    assert q * span < (q' + 1) * span;
    MulLessCancel(q, q' + 1, span);
  }

  /**
   The bytes stored for pixel (x, y) equal the exact truncated quotients, so
   the casts lose nothing; the products feeding them fit in a C `int`.
   */
  lemma GradientChannels(W: nat, H: nat, x: nat, y: nat)
    requires 1 < W && 1 < H && x < W && y < H
    ensures GradientPixel(W, H, x, y).r as int == x * 255 / (W - 1)
    ensures GradientPixel(W, H, x, y).g as int == y * 255 / (H - 1)
    ensures GradientPixel(W, H, x, y).b == 128
    ensures LevelsFitInt(W, H) ==> x * 255 <= IntMax && y * 255 <= IntMax
  {
    LevelInRange(x, W - 1);
    LevelInRange(y, H - 1);
    ToByteLossless(Level(x, W - 1));
    ToByteLossless(Level(y, H - 1));
  }

  /** Left column red 0, right column red 255, top row green 0, bottom row green 255. */
  lemma GradientEdges(W: nat, H: nat, x: nat, y: nat)
    requires 1 < W && 1 < H && x < W && y < H
    ensures GradientPixel(W, H, 0, y).r == 0 && GradientPixel(W, H, W - 1, y).r == 255
    ensures GradientPixel(W, H, x, 0).g == 0 && GradientPixel(W, H, x, H - 1).g == 255
  {
    LevelEndpoints(W - 1);
    LevelEndpoints(H - 1);
  }

  /** Red never decreases from left to right and green never decreases from top to bottom. */
  lemma GradientMonotone(W: nat, H: nat, x: nat, x': nat, y: nat, y': nat)
    requires 1 < W && 1 < H && x <= x' < W && y <= y' < H
    ensures GradientPixel(W, H, x, y).r <= GradientPixel(W, H, x', y').r
    ensures GradientPixel(W, H, x, y).g <= GradientPixel(W, H, x', y').g
  {
    GradientChannels(W, H, x, y);
    GradientChannels(W, H, x', y');
    LevelMonotone(x, x', W - 1);
    LevelMonotone(y, y', H - 1);
  }

  /** The corners of the 512 x 512 gradient. */
  lemma Gradient512Corners()
    ensures GradientPixel(512, 512, 0, 0) == Rgb(0, 0, 128)
    ensures GradientPixel(512, 512, 511, 0) == Rgb(255, 0, 128)
    ensures GradientPixel(512, 512, 0, 511) == Rgb(0, 255, 128)
    ensures GradientPixel(512, 512, 511, 511) == Rgb(255, 255, 128)
  {
    LevelEndpoints(511);
  }
}
