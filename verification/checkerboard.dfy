/**
 The checkerboard generator: 64 x 64 tiles, pure red and pure blue, the tile
 at the top-left red, neighbouring tiles of opposite colours.
 */
module Checkerboard {
  import opened Raster

  /** Side of a square tile, in pixels. */
  const Tile: nat := 64

  const Red: Rgb := Rgb(255, 0, 0)
  const Blue: Rgb := Rgb(0, 0, 255)

  /** Colour index of the tile holding pixel (x, y); the `& 1` of `make_checkerboard` on a non-negative sum is `% 2`. */
  function TileColor(x: nat, y: nat): nat {
    (x / Tile + y / Tile) % 2
  }

  /** Colour of pixel (x, y): index 0 gives red, index 1 blue, green is always off. */
  function CheckerPixel(x: nat, y: nat): Rgb {
    var tileColor := TileColor(x, y);
    var r: bv8 := if tileColor != 0 then 0 else 255;
    var g: bv8 := 0;
    var b: bv8 := if tileColor != 0 then 255 else 0;
    Rgb(r, g, b)
  }

  /** The checkerboard image of a W x H buffer. */
  function CheckerImage(W: nat, H: nat): seq<bv8> {
    Render(W, H, CheckerPixel)
  }

  /** The colour opposite to `c` on the board. */
  function Opposite(c: Rgb): Rgb {
    if c == Red then Blue else Red
  }

  /**
   An independent description of the board, tile by tile: the top-left tile is
   red, each tile of the top row is opposite to its left neighbour, and each
   other tile is opposite to the tile above it.
   */
  function Board(tx: nat, ty: nat): Rgb
    decreases tx + ty
  {
    if ty > 0 then Opposite(Board(tx, ty - 1))
    else if tx > 0 then Opposite(Board(tx - 1, 0))
    else Red
  }

  /** Fills the first `BufferSize(W, H)` bytes of `buf` with the checkerboard. */
  method MakeCheckerboard(buf: seq<bv8>, W: nat, H: nat) returns (img: seq<bv8>)
    requires BufferSize(W, H) <= |buf|
    requires FitsInt(W, H)
    ensures |img| == |buf|
    ensures img[..BufferSize(W, H)] == CheckerImage(W, H)
    ensures img[BufferSize(W, H)..] == buf[BufferSize(W, H)..]
    ensures forall x: nat, y: nat :: x < W && y < H ==>
      ReadPixel(img, W, H, x, y) == (if (x / Tile + y / Tile) % 2 == 0 then Red else Blue)
  {
    img := Fill(buf, W, H, CheckerPixel);
    forall x: nat, y: nat | x < W && y < H
      ensures ReadPixel(img, W, H, x, y) == (if (x / Tile + y / Tile) % 2 == 0 then Red else Blue)
    {
      CheckerColours(x, y);
    }
  }

  /** Every pixel is red exactly when its tile index sum is even, and blue exactly when it is odd. */
  lemma CheckerColours(x: nat, y: nat)
    ensures CheckerPixel(x, y) == Red <==> (x / Tile + y / Tile) % 2 == 0
    ensures CheckerPixel(x, y) == Blue <==> (x / Tile + y / Tile) % 2 == 1
    ensures CheckerPixel(x, y).g == 0
  {
  }

  /** The board alternates colours with the parity of the tile coordinates. */
  lemma {:induction false} BoardParity(tx: nat, ty: nat)
    ensures Board(tx, ty) == (if (tx + ty) % 2 == 0 then Red else Blue)
    decreases tx + ty
  {
    if ty > 0 {
      BoardParity(tx, ty - 1);
    } else if tx > 0 {
      BoardParity(tx - 1, 0);
    }
  }

  /** The generator paints every pixel with the colour the board gives its tile. */
  lemma CheckerMatchesBoard(x: nat, y: nat)
    ensures CheckerPixel(x, y) == Board(x / Tile, y / Tile)
  {
    BoardParity(x / Tile, y / Tile);
  }

  /** The whole top-left tile, pixel (0, 0) included, is red. */
  lemma TopLeftTileRed(x: nat, y: nat)
    requires x < Tile && y < Tile
    ensures CheckerPixel(x, y) == Red
  {
  }

  /** Two pixels of the same tile have the same colour. */
  lemma TileUniform(x: nat, y: nat, x': nat, y': nat)
    requires x / Tile == x' / Tile && y / Tile == y' / Tile
    ensures CheckerPixel(x, y) == CheckerPixel(x', y')
  {
  }

  /** Pixels one tile apart, horizontally or vertically, have opposite colours. */
  lemma NeighboursOpposite(x: nat, y: nat)
    ensures CheckerPixel(x + Tile, y) == Opposite(CheckerPixel(x, y))
    ensures CheckerPixel(x, y + Tile) == Opposite(CheckerPixel(x, y))
  {
    assert (x + Tile) / Tile == x / Tile + 1;
    assert (y + Tile) / Tile == y / Tile + 1;
  }

  /** On the 512 x 512 image the board is 8 x 8 tiles; its corners alternate red and blue accordingly. */
  lemma Board512()
    ensures 512 / Tile == 8
    ensures CheckerPixel(0, 0) == Red && CheckerPixel(511, 511) == Red
    ensures CheckerPixel(511, 0) == Blue && CheckerPixel(0, 511) == Blue
  {
  }
}
