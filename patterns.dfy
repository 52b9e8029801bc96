/** Known patterns under the bounded rule: the block is still even against
    an edge, and the blinker has period 2. */
module Patterns {
  import opened Rules

  /** The grid whose live cells are exactly those of `cells` that lie on it. */
  function Pattern(w: nat, h: nat, cells: set<(int, int)>): (r: Grid)
    ensures IsGrid(r, w, h)
    ensures forall x, y :: 0 <= x < w && 0 <= y < h ==> (r[x][y] <==> (x, y) in cells)
  {
    seq(w, x => seq(h, y => (x, y) in cells))
  }

  /** A 2 x 2 block with top-left cell (x, y). */
  function Block(x: int, y: int): set<(int, int)>
  {
    {(x, y), (x + 1, y), (x, y + 1), (x + 1, y + 1)}
  }

  /** Three cells in a row (along x) centred on (x, y). */
  function RowOfThree(x: int, y: int): set<(int, int)>
  {
    set a | x - 1 <= a <= x + 1 :: (a, y)
  }

  /** Three cells in a column (along y) centred on (x, y). */
  function ColumnOfThree(x: int, y: int): set<(int, int)>
  {
    set b | y - 1 <= b <= y + 1 :: (x, b)
  }

  /** A block alone on the grid is a still life, wherever it sits, corners
      included: its cells each have 3 live neighbours, no other cell more than 2. */
  lemma BlockIsStill(w: nat, h: nat, x: int, y: int)
    requires 0 <= x && x + 1 < w && 0 <= y && y + 1 < h
    ensures NextGen(Pattern(w, h, Block(x, y)), w, h) == Pattern(w, h, Block(x, y))
  {
    var g := Pattern(w, h, Block(x, y));
    forall a, b | 0 <= a < w && 0 <= b < h
      ensures NextGen(g, w, h)[a][b] == g[a][b]
    {
      var n := NeighbourCount(g, w, h, a, b);
      if (a, b) in Block(x, y) {
        assert n == 3;
      } else {
        assert n <= 2;
      }
    }
    GridExt(NextGen(g, w, h), g, w, h);
  }

  /** One step of an isolated blinker turns its row into a column. */
  lemma RowBecomesColumn(w: nat, h: nat, x: int, y: int)
    requires 1 <= x && x + 1 < w && 1 <= y && y + 1 < h
    ensures NextGen(Pattern(w, h, RowOfThree(x, y)), w, h) == Pattern(w, h, ColumnOfThree(x, y))
  {
    var g := Pattern(w, h, RowOfThree(x, y));
    var g' := Pattern(w, h, ColumnOfThree(x, y));
    forall a, b | 0 <= a < w && 0 <= b < h
      ensures NextGen(g, w, h)[a][b] == g'[a][b]
    {
      var n := NeighbourCount(g, w, h, a, b);
      if (a, b) == (x, y) {
        assert n == 2;
      } else if (a, b) in ColumnOfThree(x, y) {
        assert n == 3;
      } else if a < x - 2 || a > x + 2 || b < y - 1 || b > y + 1 {
        assert n == 0;
      } else {
        assert n != 3;
      }
    }
    GridExt(NextGen(g, w, h), g', w, h);
  }

  /** One step of an isolated blinker turns its column into a row. */
  lemma ColumnBecomesRow(w: nat, h: nat, x: int, y: int)
    requires 1 <= x && x + 1 < w && 1 <= y && y + 1 < h
    ensures NextGen(Pattern(w, h, ColumnOfThree(x, y)), w, h) == Pattern(w, h, RowOfThree(x, y))
  {
    var g := Pattern(w, h, ColumnOfThree(x, y));
    var g' := Pattern(w, h, RowOfThree(x, y));
    forall a, b | 0 <= a < w && 0 <= b < h
      ensures NextGen(g, w, h)[a][b] == g'[a][b]
    {
      var n := NeighbourCount(g, w, h, a, b);
      if (a, b) == (x, y) {
        assert n == 2;
      } else if (a, b) in RowOfThree(x, y) {
        assert n == 3;
      } else if a < x - 1 || a > x + 1 || b < y - 2 || b > y + 2 {
        assert n == 0;
      } else {
        assert n != 3;
      }
    }
    GridExt(NextGen(g, w, h), g', w, h);
  }

  /** The blinker has period 2: it differs from its next generation and
      equals the one after. */
  lemma BlinkerPeriodTwo(w: nat, h: nat, x: int, y: int)
    requires 1 <= x && x + 1 < w && 1 <= y && y + 1 < h
    ensures var g := Pattern(w, h, RowOfThree(x, y));
      NextGen(g, w, h) != g && NextGen(NextGen(g, w, h), w, h) == g
  {
    var g := Pattern(w, h, RowOfThree(x, y));
    RowBecomesColumn(w, h, x, y);
    ColumnBecomesRow(w, h, x, y);
    assert NextGen(g, w, h)[x - 1][y] != g[x - 1][y];
  }
}
