/** Integer arithmetic of the program's start-up and of its mouse-to-cell
    mapping. C's `int` division truncates toward zero, whereas Dafny's `/`
    is Euclidean, so the C operator is written out here. */
module Sizing {

  /** Dafny's `/` on a non-negative dividend: the whole number of divisors in it. */
  lemma FloorDiv(a: int, b: int)
    requires a >= 0 && b > 0
    ensures 0 <= a / b && (a / b) * b <= a < (a / b) * b + b
  {
    var q, r := a / b, a % b;
    assert a == q * b + r && 0 <= r < b;
  }

  /** C's `a / b` for a positive divisor: the quotient truncated toward zero. */
  function TruncDiv(a: int, b: int): (q: int)
    requires b > 0
    ensures a >= 0 ==> 0 <= q && q * b <= a < q * b + b
    ensures a < 0 ==> q <= 0 && q * b - b < a <= q * b
  {
    if a >= 0 then FloorDiv(a, b); a / b else FloorDiv(-a, b); -((-a) / b)
  }

  /** The cell grid of a WIDTH x HEIGHT window with square tiles of TILE pixels:
      (W_TILES, H_TILES). Leftover pixels on the right and bottom are unused. */
  function GridSize(width: int, height: int, tile: int): (dims: (int, int))
    requires tile > 0
    ensures width >= 0 ==> 0 <= dims.0 && dims.0 * tile <= width < (dims.0 + 1) * tile
    ensures height >= 0 ==> 0 <= dims.1 && dims.1 * tile <= height < (dims.1 + 1) * tile
  {
    (TruncDiv(width, tile), TruncDiv(height, tile))
  }

  /** The default window of 800 x 800 pixels with 4-pixel tiles is a 200 x 200 grid. */
  lemma DefaultGrid()
    ensures GridSize(800, 800, 4) == (200, 200)
  {
  }

  /** The column (or row) the program edits for an integral world coordinate:
      `(int) relPos.x / TILE`, truncated toward zero. */
  function CellOf(world: int, tile: int): (cell: int)
    requires tile > 0
    ensures world >= 0 ==> 0 <= cell && cell * tile <= world < (cell + 1) * tile
    ensures -tile < world < 0 ==> cell == 0
    ensures world <= -tile ==> cell < 0
  {
    TruncDiv(world, tile)
  }

  /** Multiplying by a positive tile size keeps the order of two counts. */
  lemma ScaleByTile(a: int, b: int, tile: int)
    requires tile > 0
    ensures a <= b <==> a * tile <= b * tile
  {
    if a <= b {
      assert (b - a) * tile >= 0;
    } else {
      assert (a - b) * tile > 0;
    }
  }

  /** A point on the drawn grid, [0, tiles * tile), maps to a cell of the grid,
      and so does a point less than one tile to the left of (or above) it;
      a point a whole tile or more outside maps to an index out of range. */
  lemma CellOfInRange(world: int, tile: int, tiles: nat)
    requires tile > 0 && tiles > 0
    ensures 0 <= CellOf(world, tile) < tiles <==> -tile < world < tiles * tile
  {
    var c := CellOf(world, tile);
    ScaleByTile(c + 1, tiles, tile);
    ScaleByTile(tiles, c, tile);
  }
}
