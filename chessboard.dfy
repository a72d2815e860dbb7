/**
  The placeholder texture shown before the first frame: a 512 × 512 RGBA
  byte image of 64-pixel black and white squares, fully opaque.
 */
module Chessboard {
  import opened Common

  const TextureWidth: nat := 512
  const TextureHeight: nat := 512

  /** Side of one square, in pixels. */
  const ChessSize: nat := 64

  /** Bytes in the image: four per pixel. */
  const ByteCount: nat := TextureWidth * TextureHeight * 4

  /** Index of channel k of pixel (x, y): rows of `TextureWidth` pixels, four bytes each. */
  function Offset(x: nat, y: nat, k: nat): nat
  {
    Slot(y * TextureWidth + x, k)
  }

  /**
    The grey level of pixel (x, y): white when exactly one of its column
    and row of squares is odd. The source's `& 1` on a non-negative
    quotient is its remainder modulo 2.
   */
  function Color(x: nat, y: nat): (c: u8)
    ensures c == 255 || c == 0
    ensures c == 255 <==> ((x / ChessSize) % 2 == 1) != ((y / ChessSize) % 2 == 1)
  {
    if (x / ChessSize) % 2 != (y / ChessSize) % 2 then 255 else 0
  }

  /** Every channel of every pixel lies inside the buffer. */
  lemma OffsetInBounds(x: nat, y: nat, k: nat)
    requires x < TextureWidth && y < TextureHeight && k < 4
    ensures Offset(x, y, k) < ByteCount
  {
  }

  /** No two channels of two pixels share a byte. */
  lemma OffsetInjective(x: nat, y: nat, k: nat, x': nat, y': nat, k': nat)
    requires x < TextureWidth && x' < TextureWidth && k < 4 && k' < 4
    requires Offset(x, y, k) == Offset(x', y', k')
    ensures x == x' && y == y' && k == k'
  {
  }

  /** Every byte of the buffer is some channel of some pixel: the loops leave no byte unwritten. */
  lemma OffsetOnto(i: nat)
    requires i < ByteCount
    ensures var p := i / 4;
      && p % TextureWidth < TextureWidth && p / TextureWidth < TextureHeight
      && Offset(p % TextureWidth, p / TextureWidth, i % 4) == i
  {
  }

  /** All pixels of one square share its colour. */
  lemma SameSquareSameColor(x: nat, y: nat, x': nat, y': nat)
    requires x / ChessSize == x' / ChessSize && y / ChessSize == y' / ChessSize
    ensures Color(x, y) == Color(x', y')
  {
  }

  /** Squares side by side, or one above the other, have different colours. */
  lemma NeighbourSquaresDiffer(x: nat, y: nat)
    ensures Color(x + ChessSize, y) != Color(x, y)
    ensures Color(x, y + ChessSize) != Color(x, y)
  {
    assert (x + ChessSize) / ChessSize == x / ChessSize + 1;
    assert (y + ChessSize) / ChessSize == y / ChessSize + 1;
  }

  /** The pixels the fill has reached: every row before `y`, and row `y` before column `x`. */
  predicate Filled(px: nat, py: nat, x: nat, y: nat)
  {
    py < y || (py == y && px < x)
  }

  /** Allocate and fill the image: R, G and B take the square's colour, alpha is 255. */
  method MakeChessboard() returns (data: array<u8>)
    ensures fresh(data) && data.Length == ByteCount
    ensures forall x: nat, y: nat, k: nat :: x < TextureWidth && y < TextureHeight && k < 4 ==>
      data[Offset(x, y, k)] == if k == 3 then 255 else Color(x, y)
  {
    data := new u8[ByteCount];
    var y := 0;
    while y < TextureHeight
      invariant 0 <= y <= TextureHeight
      invariant forall px: nat, py: nat, k: nat :: px < TextureWidth && py < y && k < 4 ==>
        data[Offset(px, py, k)] == if k == 3 then 255 else Color(px, py)
    {
      var x := 0;
      while x < TextureWidth
        invariant 0 <= x <= TextureWidth
        invariant forall px: nat, py: nat, k: nat :: px < TextureWidth && Filled(px, py, x, y) && k < 4 ==>
          data[Offset(px, py, k)] == if k == 3 then 255 else Color(px, py)
      {
        var index := (y * TextureWidth + x) * 4;
        var color := Color(x, y);
        data[index + 0] := color;
        data[index + 1] := color;
        data[index + 2] := color;
        data[index + 3] := 255;
        x := x + 1;
      }
      y := y + 1;
    }
  }
}
