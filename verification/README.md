# ray1 pixel generators in Dafny

`ray1.c` renders two 512 x 512 RGB images into one reused byte buffer and
hands each to an image encoder: a checkerboard of 64 x 64 red and blue tiles,
and a linear gradient (red across, green down, constant blue). This project
models the two generators, `make_checkerboard` and `make_gradient`, and the
part of `main` that sizes the buffer and fills it twice.

Modules, one per concern of the source:

- `Raster` (`raster.dfy`): the buffer layout. Pixel (x, y) of a W-wide image
  occupies bytes `(y*W+x)*3 .. (y*W+x)*3+2`. The module has the address
  function, its inverse, the bounds, disjointness and coverage lemmas, the
  pure `Render` of a per-pixel colour function, and `Fill`, the nested
  `y`/`x` loop both generators share. `Fill` writes into a fresh `array<bv8>`
  and returns the buffer's new contents.
- `Checkerboard` (`checkerboard.dfy`): the tile colour formula and
  `MakeCheckerboard`. `Board` is an independent, tile-by-tile description of
  the board. Lemmas tie the formula to `Board` and give the tile properties.
- `Gradient` (`gradient.dfy`): the truncating ramp `Level(v, span) = v*255/span`
  and `MakeGradient`. Lemmas give the range, endpoints, monotonicity and
  lossless byte casts.
- `Program` (`program.dfy`): `main`'s sequence without I/O. The checkerboard
  is written and then the gradient over it, in one buffer of `512*512*3` bytes.

A buffer is `seq<bv8>`. A generator takes the buffer's contents before the
call and returns them after it. The C code writes through `unsigned char *`,
so the model accepts any buffer of at least `W*H*3` bytes and proves that
the bytes past the image are left unchanged.

C integer semantics are written out. The `(unsigned char)` cast is
`Raster.ToByte`, a reduction modulo 256. `& 1` on a non-negative sum is
`% 2`. Division of non-negative operands is the same in C and in Dafny.
Signed overflow is undefined in C, so the generators require that their
index and product arithmetic fits in a 32-bit `int`: `Raster.FitsInt` and
`Gradient.LevelsFitInt`.

`make_gradient` divides by `W-1` and `H-1` once for every pixel. The code
never checks for `W == 1` or `H == 1`, so it is defined exactly when the
image has no pixels, or when both sides are at least 2. `Gradient.DivisorsNonZero`
states this exact condition. It is weaker than a plain `W > 1 && H > 1`: an
empty image is a valid input on which the loops do nothing. For the same
reason `Gradient.LevelsFitInt` bounds `(W-1)*255` and `(H-1)*255` only when
the image has a pixel.

## Model

| member | source | states |
|---|---|---|
| Raster.Fill | ray1.c:41-52 | the row-by-row, column-by-column loop leaves the first `W*H*3` bytes equal to the rendered image whatever the buffer held before; every pixel reads back as its colour; the bytes past the image keep their old values |
| Raster.FillRow | ray1.c:42-51 | with the rows above y already rendered and the rest of the buffer untouched, one pass over x writes the three bytes at `(y*W+x)*3` for every column, so row y is rendered too and the bytes after it are unchanged |
| Raster.SlotInBuffer | ray1.c:47-50 | every write `img[(y*W+x)*3 + k]`, for x < W, y < H and k < 3, falls inside a buffer of `W*H*3` bytes |
| Raster.SlotRoundTrip | ray1.c:47 | decoding address `(y*W+x)*3 + k` with `/3`, `%W` and `/W` gives back (x, y, k) |
| Raster.IndexRoundTrip | ray1.c:98 | every byte of the `W*H*3`-byte allocation decodes to an in-range (x, y, channel) whose address is that byte, so the loops overwrite the whole buffer (with `SlotsDisjoint`, each byte exactly once) |
| Raster.SlotsDisjoint | ray1.c:62-65 | the three-byte slots of distinct pixels, and distinct channels of one pixel, never share an address |
| Raster.RowLayout | ray1.c:95 | vertically adjacent pixels are `W*3` bytes apart, which is the stride given to the encoder; the byte after a row's last pixel is the first byte of the next row |
| Raster.IndicesFitInt | ray1.c:47 | when `W*H*3` fits in a C `int`, so do `y*W+x` and every byte address the loops compute |
| Raster.RenderReadBack | ray1.c:47-50 | reading the three bytes at `(y*W+x)*3` of a rendered image gives back the colour chosen for (x, y) |
| Raster.ToByteLossless | ray1.c:59-60 | the `(unsigned char)` cast leaves every value in 0..255 unchanged |
| Checkerboard.MakeCheckerboard | ray1.c:39-53 | after the call, pixel (x, y) is (255,0,0) when `(x/64 + y/64)` is even and (0,0,255) when it is odd, for every in-range pixel; the result does not depend on the earlier contents; bytes past the image are untouched |
| Checkerboard.CheckerColours | ray1.c:43-46 | a pixel is red if and only if its tile index sum is even, and blue if and only if it is odd; green is 0 everywhere |
| Checkerboard.BoardParity | ray1.c:43 | the tile-by-tile description (top-left red, each tile opposite to its left or upper neighbour) has colour red exactly on even tile sums |
| Checkerboard.CheckerMatchesBoard | ray1.c:43-46 | the per-pixel formula paints every pixel with the colour its tile has on the independently defined board |
| Checkerboard.TopLeftTileRed | ray1.c:44 | the whole top-left tile, pixel (0,0) included, is red |
| Checkerboard.TileUniform | ray1.c:40-43 | all pixels of one 64 x 64 tile have the same colour |
| Checkerboard.NeighboursOpposite | ray1.c:43-46 | moving one tile right or one tile down switches between red and blue |
| Checkerboard.Board512 | ray1.c:40 | a 512 x 512 image has 8 x 8 tiles; corners (0,0) and (511,511) are red, and (511,0) and (0,511) are blue |
| Gradient.MakeGradient | ray1.c:55-68 | after the call, pixel (x, y) is `(x*255/(W-1), y*255/(H-1), 128)` with truncating division, for every in-range pixel; the result does not depend on the earlier contents; bytes past the image are untouched; its division precondition `DivisorsNonZero` holds exactly when no division by zero can happen, and its other preconditions only keep the C `int` arithmetic from overflowing |
| Gradient.LevelIsTruncation | ray1.c:59-60 | the ramp value q is the truncated quotient: `q*span <= v*255 < (q+1)*span` |
| Gradient.LevelInRange | ray1.c:59-60 | for `v <= span` the ramp value lies in 0..255 |
| Gradient.LevelEndpoints | ray1.c:56 | the ramp is 0 at its start and exactly 255 at its end |
| Gradient.LevelMonotone | ray1.c:56-60 | the ramp never decreases |
| Gradient.GradientChannels | ray1.c:59-61 | the stored red and green bytes equal the exact quotients, so the casts lose nothing; blue is 128; with `LevelsFitInt`, the products `x*255` and `y*255` fit in a C `int` |
| Gradient.GradientEdges | ray1.c:59-60 | red is 0 in the left column and 255 in the right column; green is 0 in the top row and 255 in the bottom row |
| Gradient.GradientMonotone | ray1.c:59-60 | red never decreases from left to right, and green never decreases from top to bottom |
| Gradient.Gradient512Corners | ray1.c:56-61 | on 512 x 512 the corners are (0,0,128), (255,0,128), (0,255,128) and (255,255,128) |
| Program.ProduceImages | ray1.c:94-113 | filling one `512*512*3`-byte buffer with the checkerboard and then the gradient gives exactly the checkerboard image, and then exactly the gradient image, whatever the allocator left in it |
| Program.StrideIsRowPitch | ray1.c:94-95 | the stride `W*C` separates vertically adjacent pixels, and stride times height is the buffer size |

## Left out

- `try_write_png` (ray1.c:22-37) is not modelled. It encodes and writes a PNG through the stb library, creates `output/` and retries once there. This is file I/O over a library that is not part of this model.
- `make_gradient_dither` (ray1.c:72-91) is not modelled. It uses `double` arithmetic, `floor`, and `rand` seeded from the clock, and its only call is commented out.
- `main`'s allocation failure (exit 1), write failures (exits 2 and 3), `free`, and the `stbi_flip_vertically_on_write(0)` setting are process and encoder plumbing. `Program.ProduceImages` keeps only the pixel work and the buffer size `W*H*3`.
- The PNG encoder (`stb_image_write.h`) is not part of this model.
- Negative widths and heights are not modelled: sizes are `nat`. With a negative `int` size the C loops would do nothing, and no such call exists in the program.
