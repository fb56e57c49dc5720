/**
 The pixel buffer shared by both generators: a flat, row-major sequence of
 bytes, three per pixel (red, green, blue), origin at the top-left.  Pixel
 (x, y) of a W-wide image starts at byte `(y * W + x) * 3`.

 This module holds the layout (addresses, their inverse, bounds), the pure
 rendering of a per-pixel colour function into a buffer, and the nested loop
 both generators use to fill a buffer in place.
 */
module Raster {

  /** Bytes per pixel. */
  const Channels: nat := 3

  /** Largest value of the C `int` in which the generators compute indices. */
  const IntMax: int := 0x7fff_ffff

  datatype Rgb = Rgb(r: bv8, g: bv8, b: bv8)

  /** The C conversion `(unsigned char)v`: the value reduced modulo 256. */
  function ToByte(v: int): bv8 {
    (v % 256) as bv8
  }

  /** The C cast to `unsigned char` keeps every value in 0..255 unchanged. */
  lemma ToByteLossless(v: int)
    requires 0 <= v < 256
    ensures ToByte(v) as int == v
  {
    assert v % 256 == v;
  }

  /** Channel `k` of a pixel, in buffer order: 0 red, 1 green, 2 blue. */
  function ChannelOf(p: Rgb, k: nat): bv8
    requires k < Channels
  {
    if k == 0 then p.r else if k == 1 then p.g else p.b
  }

  /** Number of bytes a W x H image occupies. */
  function BufferSize(W: nat, H: nat): nat {
    W * H * Channels
  }

  /** Bytes between the start of one row and the start of the next. */
  function RowStride(W: nat): nat {
    W * Channels
  }

  /** Address of the first (red) byte of pixel (x, y). */
  function Offset(W: nat, x: nat, y: nat): nat {
    (y * W + x) * Channels
  }

  /** One byte of the image, named by its pixel and channel. */
  datatype Slot = Slot(x: nat, y: nat, channel: nat)

  predicate ValidSlot(W: nat, H: nat, s: Slot) {
    s.x < W && s.y < H && s.channel < Channels
  }

  /** Address of a slot in the buffer. */
  function ByteIndex(W: nat, s: Slot): nat {
    Offset(W, s.x, s.y) + s.channel
  }

  /** The slot stored at address `i`: the inverse of `ByteIndex`. */
  function SlotOf(W: nat, i: nat): Slot
    requires W > 0
  {
    Slot((i / Channels) % W, (i / Channels) / W, i % Channels)
  }

  /** C `int` arithmetic on indices of a W x H image never overflows. */
  predicate FitsInt(W: nat, H: nat) {
    W <= IntMax && H <= IntMax && BufferSize(W, H) <= IntMax + 1
  }

  /** A positive multiple of a positive number is at least that number. */
  lemma MulAtLeast(a: int, d: int)
    requires a >= 1 && d > 0
    ensures a * d >= d
  {
  }

  /** Multiplying by a positive number preserves a strict order in reverse. */
  lemma MulLessCancel(a: nat, b: nat, c: nat)
    requires a * c < b * c
    ensures a < b
  {
  }

  /** Euclidean division is determined by any quotient/remainder pair. */
  lemma DivModOf(n: int, d: int, q: int, r: int)
    requires d > 0 && 0 <= r < d && n == q * d + r
    ensures n / d == q && n % d == r
  {
    var q', r' := n / d, n % d;
    assert (q' - q) * d == r - r' by {
      assert q' * d + r' == q * d + r;
      assert (q' - q) * d == q' * d - q * d;
    }
    if q' > q {
      MulAtLeast(q' - q, d);
    } else if q' < q {
      MulAtLeast(q - q', d);
    }
  }

  /** Every address of a slot of the image lies inside its buffer. */
  lemma SlotInBuffer(W: nat, H: nat, s: Slot)
    requires ValidSlot(W, H, s)
    ensures ByteIndex(W, s) < BufferSize(W, H)
  {
    var p := s.y * W + s.x;
    assert p < (s.y + 1) * W;
    assert (s.y + 1) * W <= H * W;
    assert p + 1 <= W * H;
    assert (p + 1) * Channels <= W * H * Channels;
  }

  /** Decoding the address of a slot gives the slot back: distinct slots have distinct addresses. */
  lemma SlotRoundTrip(W: nat, s: Slot)
    requires s.x < W && s.channel < Channels
    ensures SlotOf(W, ByteIndex(W, s)) == s
  {
    var p := s.y * W + s.x;
    DivModOf(ByteIndex(W, s), Channels, p, s.channel);
    DivModOf(p, W, s.y, s.x);
  }

  /** Every address of the buffer belongs to a slot of the image, and encodes it. */
  lemma IndexRoundTrip(W: nat, H: nat, i: nat)
    requires i < BufferSize(W, H)
    ensures W > 0 && ValidSlot(W, H, SlotOf(W, i))
    ensures ByteIndex(W, SlotOf(W, i)) == i
  {
    var p := i / Channels;
    assert p * Channels <= i;
    MulLessCancel(p, W * H, Channels);
    var s := SlotOf(W, i);
    assert p == s.y * W + s.x;
    MulLessCancel(s.y, H, W);
  }

  /** The three-byte slots of distinct pixels never overlap. */
  lemma SlotsDisjoint(W: nat, s: Slot, t: Slot)
    requires s.x < W && s.channel < Channels
    requires t.x < W && t.channel < Channels
    requires s != t
    ensures ByteIndex(W, s) != ByteIndex(W, t)
  {
    SlotRoundTrip(W, s);
    SlotRoundTrip(W, t);
  }

  /** Rows are `RowStride(W)` bytes apart, and the address after the last pixel of a row is the first of the next. */
  lemma RowLayout(W: nat, x: nat, y: nat)
    ensures Offset(W, x, y + 1) == Offset(W, x, y) + RowStride(W)
    ensures Offset(W, W, y) == Offset(W, 0, y + 1)
  {
    assert (y + 1) * W == y * W + W;
  }

  /** Under `FitsInt`, every index the generators compute is a C `int`. */
  lemma IndicesFitInt(W: nat, H: nat, s: Slot)
    requires FitsInt(W, H) && ValidSlot(W, H, s)
    ensures s.y * W + s.x <= IntMax
    ensures ByteIndex(W, s) <= IntMax
  {
    SlotInBuffer(W, H, s);
  }

  /** The image whose pixel (x, y) has colour `pixel(x, y)`, laid out row-major. */
  function Render(W: nat, H: nat, pixel: (nat, nat) -> Rgb): seq<bv8> {
    seq(BufferSize(W, H), i requires 0 <= i < BufferSize(W, H) =>
      IndexRoundTrip(W, H, i);
      var s := SlotOf(W, i);
      ChannelOf(pixel(s.x, s.y), s.channel))
  }

  /** The pixel stored at (x, y) of a buffer. */
  function ReadPixel(img: seq<bv8>, W: nat, H: nat, x: nat, y: nat): Rgb
    requires BufferSize(W, H) <= |img| && x < W && y < H
  {
    SlotInBuffer(W, H, Slot(x, y, 2));
    var o := Offset(W, x, y);
    Rgb(img[o], img[o + 1], img[o + 2])
  }

  /** The byte of a rendered image at a slot's address is that channel of that pixel's colour. */
  lemma RenderByte(W: nat, H: nat, pixel: (nat, nat) -> Rgb, s: Slot)
    requires ValidSlot(W, H, s)
    ensures ByteIndex(W, s) < |Render(W, H, pixel)|
    ensures Render(W, H, pixel)[ByteIndex(W, s)] == ChannelOf(pixel(s.x, s.y), s.channel)
  {
    SlotInBuffer(W, H, s);
    SlotRoundTrip(W, s);
  }

  /** The three bytes of pixel (x, y) of a rendered image are its red, green and blue. */
  lemma RenderPixelBytes(W: nat, H: nat, pixel: (nat, nat) -> Rgb, x: nat, y: nat)
    requires x < W && y < H
    ensures Offset(W, x, y) == Offset(W, 0, y) + x * Channels
    ensures Offset(W, x, y) + 2 < |Render(W, H, pixel)|
    ensures Render(W, H, pixel)[Offset(W, x, y)] == pixel(x, y).r
    ensures Render(W, H, pixel)[Offset(W, x, y) + 1] == pixel(x, y).g
    ensures Render(W, H, pixel)[Offset(W, x, y) + 2] == pixel(x, y).b
  {
    RenderByte(W, H, pixel, Slot(x, y, 0));
    RenderByte(W, H, pixel, Slot(x, y, 1));
    RenderByte(W, H, pixel, Slot(x, y, 2));
  }

  /** Reading pixel (x, y) back from a rendered image gives `pixel(x, y)`. */
  lemma RenderReadBack(W: nat, H: nat, pixel: (nat, nat) -> Rgb, x: nat, y: nat)
    requires x < W && y < H
    ensures ReadPixel(Render(W, H, pixel), W, H, x, y) == pixel(x, y)
  {
    RenderPixelBytes(W, H, pixel, x, y);
  }

  /**
   One pass of the inner loop of both generators: for each column x of row y,
   the three bytes at `(y * W + x) * 3` receive the channels of `pixel(x, y)`.
   The rows above are already rendered on entry; on exit row y is too, and
   the bytes after it still hold what the buffer held before.
   */
  method FillRow(a: array<bv8>, buf: seq<bv8>, W: nat, H: nat, pixel: (nat, nat) -> Rgb, y: nat)
    modifies a
    requires y < H && a.Length == |buf| && BufferSize(W, H) <= |buf|
    requires Offset(W, 0, y) <= BufferSize(W, H)
    requires forall i :: 0 <= i < Offset(W, 0, y) ==> a[i] == Render(W, H, pixel)[i]
    requires forall i :: Offset(W, 0, y) <= i < a.Length ==> a[i] == buf[i]
    ensures Offset(W, 0, y + 1) <= BufferSize(W, H)
    ensures forall i :: 0 <= i < Offset(W, 0, y + 1) ==> a[i] == Render(W, H, pixel)[i]
    ensures forall i :: Offset(W, 0, y + 1) <= i < a.Length ==> a[i] == buf[i]
  {
    ghost var want := Render(W, H, pixel);
    // The row starts at `start`; column x starts at `start + x * 3`.
    ghost var start := Offset(W, 0, y);
    RowLayout(W, W, y);
    if W > 0 {
      SlotInBuffer(W, H, Slot(W - 1, y, 2));
    }
    var x := 0;
    while x < W
      invariant 0 <= x <= W
      invariant forall i :: 0 <= i < start + x * Channels ==> a[i] == want[i]
      invariant forall i :: start + x * Channels <= i < a.Length ==> a[i] == buf[i]
    {
      var p := pixel(x, y);
      var idx := (y * W + x) * 3;
      RenderPixelBytes(W, H, pixel, x, y);
      a[idx + 0] := p.r;
      a[idx + 1] := p.g;
      a[idx + 2] := p.b;
      x := x + 1;
    }
  }

  /**
   The loop nest of both generators, row by row from the top.  Whatever the
   buffer held before, its first `BufferSize(W, H)` bytes end up as the
   rendered image and the bytes after them are left alone.
   */
  method Fill(buf: seq<bv8>, W: nat, H: nat, pixel: (nat, nat) -> Rgb) returns (img: seq<bv8>)
    requires BufferSize(W, H) <= |buf|
    requires FitsInt(W, H)
    ensures |img| == |buf|
    ensures img[..BufferSize(W, H)] == Render(W, H, pixel)
    ensures img[BufferSize(W, H)..] == buf[BufferSize(W, H)..]
    ensures forall x: nat, y: nat :: x < W && y < H ==> ReadPixel(img, W, H, x, y) == pixel(x, y)
  {
    var a := new bv8[|buf|](i requires 0 <= i < |buf| => buf[i]);
    ghost var want := Render(W, H, pixel);
    var y := 0;
    while y < H
      invariant 0 <= y <= H
      invariant Offset(W, 0, y) <= BufferSize(W, H)
      invariant forall i :: 0 <= i < Offset(W, 0, y) ==> a[i] == want[i]
      invariant forall i :: Offset(W, 0, y) <= i < a.Length ==> a[i] == buf[i]
    {
      FillRow(a, buf, W, H, pixel, y);
      y := y + 1;
    }
    assert Offset(W, 0, H) == BufferSize(W, H);
    img := a[..];
    assert img[..BufferSize(W, H)] == want;
    forall x: nat, y: nat | x < W && y < H
      ensures ReadPixel(img, W, H, x, y) == pixel(x, y)
    {
      RenderReadBack(W, H, pixel, x, y);
      SlotInBuffer(W, H, Slot(x, y, 2));
    }
  }
}
