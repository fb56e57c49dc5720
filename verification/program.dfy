/**
 The pixel work of the program's entry point: one buffer of 512 x 512 RGB
 pixels, filled first with the checkerboard and then, reused, with the
 gradient.  Allocation, encoding and writing the files are not modelled; the
 two images handed to the encoder are returned instead.
 */
module Program {
  import opened Raster
  import opened Checkerboard
  import opened Gradient

  const Width: nat := 512
  const Height: nat := 512

  /** The row stride passed to the encoder, `W * C`. */
  const Stride: nat := Width * Channels

  /**
   Produces the two images in the order the entry point does, reusing one
   buffer whose initial contents are arbitrary (it comes straight from the
   allocator).  Neither image depends on what the buffer held before it: the
   gradient written over the checkerboard is the gradient exactly.
   */
  method ProduceImages(buf: seq<bv8>) returns (checker: seq<bv8>, gradient: seq<bv8>)
    requires |buf| == BufferSize(Width, Height)
    ensures checker == CheckerImage(Width, Height)
    ensures gradient == GradientImage(Width, Height)
    ensures |checker| == |gradient| == Width * Height * 3
  {
    checker := MakeCheckerboard(buf, Width, Height);
    gradient := MakeGradient(checker, Width, Height);
  }

  /** The stride is the distance between vertically adjacent pixels, and both images fill the buffer exactly. */
  lemma StrideIsRowPitch(x: nat, y: nat)
    ensures Offset(Width, x, y + 1) == Offset(Width, x, y) + Stride
    ensures BufferSize(Width, Height) == Stride * Height
  {
    RowLayout(Width, x, y);
  }
}
