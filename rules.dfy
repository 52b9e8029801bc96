/** Conway's rule on a bounded grid, as pure functions: the specification
    that the in-place step of the game (module Game) is proved against.
    A grid `g` is indexed `g[x][y]` with `0 <= x < w` (W_TILES columns) and
    `0 <= y < h` (H_TILES rows); offsets that leave the grid are skipped,
    so there is no wrap-around. */
module Rules {

  type Grid = seq<seq<bool>>

  /** `g` has `w` columns of `h` cells each. */
  predicate IsGrid(g: Grid, w: nat, h: nat)
  {
    |g| == w && forall x :: 0 <= x < w ==> |g[x]| == h
  }

  /** The eight neighbour offsets, in the order the program visits them. */
  const Directions: seq<(int, int)> :=
    [(-1, -1), (-1, 0), (-1, 1),
     ( 0, -1),          ( 0, 1),
     ( 1, -1), ( 1, 0), ( 1, 1)]

  /** The table lists each of the eight cells around a cell exactly once:
      every offset is a step of at most one in each axis, none is (0, 0),
      and no two are equal. */
  lemma DirectionsAreNeighbours()
    ensures |Directions| == 8
    ensures forall i :: 0 <= i < |Directions| ==>
              -1 <= Directions[i].0 <= 1 && -1 <= Directions[i].1 <= 1 && Directions[i] != (0, 0)
    ensures forall i, j :: 0 <= i < j < |Directions| ==> Directions[i] != Directions[j]
  {
  }

  /** 1 when (x, y) lies on the grid and its cell is alive, else 0. The bounds
      test comes first, so a position off the grid is never read. */
  function Live(g: Grid, w: nat, h: nat, x: int, y: int): (n: nat)
    requires IsGrid(g, w, h)
    ensures n <= 1
    ensures n == 1 <==> 0 <= x < w && 0 <= y < h && g[x][y]
  {
    if 0 <= x < w && 0 <= y < h && g[x][y] then 1 else 0
  }

  /** Live neighbours of (x, y) among the first `d` entries of Directions:
      the value of `total` after `d` rounds of the program's counting loop. */
  function CountFirst(g: Grid, w: nat, h: nat, x: int, y: int, d: nat): (n: nat)
    requires IsGrid(g, w, h) && d <= |Directions|
    ensures n <= d
  {
    if d == 0 then 0
    else CountFirst(g, w, h, x, y, d - 1) + Live(g, w, h, x + Directions[d - 1].0, y + Directions[d - 1].1)
  }

  /** The number of live cells among the (up to) eight on-grid neighbours of (x, y). */
  function NeighbourCount(g: Grid, w: nat, h: nat, x: int, y: int): (n: nat)
    requires IsGrid(g, w, h)
    ensures n <= 8
    ensures (x == 0 || x == w - 1) && (y == 0 || y == h - 1) ==> n <= 3
    ensures x == 0 || x == w - 1 || y == 0 || y == h - 1 ==> n <= 5
  {
    Live(g, w, h, x - 1, y - 1) + Live(g, w, h, x - 1, y) + Live(g, w, h, x - 1, y + 1) +
    Live(g, w, h, x, y - 1) + Live(g, w, h, x, y + 1) +
    Live(g, w, h, x + 1, y - 1) + Live(g, w, h, x + 1, y) + Live(g, w, h, x + 1, y + 1)
  }

  /** Running the counting loop over all eight directions yields the neighbour count. */
  lemma CountAllDirections(g: Grid, w: nat, h: nat, x: int, y: int)
    requires IsGrid(g, w, h)
    ensures CountFirst(g, w, h, x, y, |Directions|) == NeighbourCount(g, w, h, x, y)
  {
    var c0 := CountFirst(g, w, h, x, y, 0);
    var c1 := CountFirst(g, w, h, x, y, 1);
    var c2 := CountFirst(g, w, h, x, y, 2);
    var c3 := CountFirst(g, w, h, x, y, 3);
    var c4 := CountFirst(g, w, h, x, y, 4);
    var c5 := CountFirst(g, w, h, x, y, 5);
    var c6 := CountFirst(g, w, h, x, y, 6);
    var c7 := CountFirst(g, w, h, x, y, 7);
    var c8 := CountFirst(g, w, h, x, y, 8);
    assert c8 == c7 + Live(g, w, h, x + 1, y + 1);
    assert c7 == c6 + Live(g, w, h, x + 1, y);
    assert c6 == c5 + Live(g, w, h, x + 1, y - 1);
    assert c5 == c4 + Live(g, w, h, x, y + 1);
    assert c4 == c3 + Live(g, w, h, x, y - 1);
    assert c3 == c2 + Live(g, w, h, x - 1, y + 1);
    assert c2 == c1 + Live(g, w, h, x - 1, y);
    assert c1 == c0 + Live(g, w, h, x - 1, y - 1);
  }

  /** The program's update of one cell, in its own order: a count below 2 or
      above 3 kills the cell; a dead cell with exactly 3 is born; any other
      cell keeps the value copied into the buffer beforehand. */
  function NextCell(alive: bool, total: nat): (next: bool)
    ensures next ==> 2 <= total <= 3
    ensures total == 3 ==> next
    ensures total == 2 ==> next == alive
  {
    if total < 2 || total > 3 then false
    else if total == 3 && !alive then true
    else alive
  }

  /** The program's rule is Conway's B3/S23: born with 3, survives with 2 or 3. */
  lemma NextCellIsB3S23(alive: bool, total: nat)
    ensures NextCell(alive, total) <==> total == 3 || (alive && total == 2)
  {
  }

  /** The next generation: every cell updated from the OLD grid only. */
  function NextGen(g: Grid, w: nat, h: nat): (r: Grid)
    requires IsGrid(g, w, h)
    ensures IsGrid(r, w, h)
    ensures forall x, y :: 0 <= x < w && 0 <= y < h ==>
              (r[x][y] <==> NeighbourCount(g, w, h, x, y) == 3 || (g[x][y] && NeighbourCount(g, w, h, x, y) == 2))
  {
    seq(w, x requires 0 <= x < w =>
      seq(h, y requires 0 <= y < h => NextCell(g[x][y], NeighbourCount(g, w, h, x, y))))
  }

  /** The grid with every cell dead. */
  function Dead(w: nat, h: nat): (r: Grid)
    ensures IsGrid(r, w, h)
    ensures forall x, y :: 0 <= x < w && 0 <= y < h ==> !r[x][y]
  {
    seq(w, x => seq(h, y => false))
  }

  /** Two grids of the same shape that agree on every cell are equal. */
  lemma GridExt(g: Grid, g': Grid, w: nat, h: nat)
    requires IsGrid(g, w, h) && IsGrid(g', w, h)
    requires forall x, y :: 0 <= x < w && 0 <= y < h ==> g[x][y] == g'[x][y]
    ensures g == g'
  {
    forall x | 0 <= x < w
      ensures g[x] == g'[x]
    {
      assert forall y :: 0 <= y < h ==> g[x][y] == g'[x][y];
    }
  }

  /** Outcome of one step for each kind of cell. */
  lemma StepCases(g: Grid, w: nat, h: nat, x: nat, y: nat)
    requires IsGrid(g, w, h) && x < w && y < h
    ensures var n := NeighbourCount(g, w, h, x, y);
      && (n < 2 || n > 3 ==> !NextGen(g, w, h)[x][y])
      && (!g[x][y] && n == 3 ==> NextGen(g, w, h)[x][y])
      && (2 <= n <= 3 && !(!g[x][y] && n == 3) ==> NextGen(g, w, h)[x][y] == g[x][y])
  {
  }

  /** An all-dead grid stays all dead. */
  lemma DeadIsStill(w: nat, h: nat)
    ensures NextGen(Dead(w, h), w, h) == Dead(w, h)
  {
    var g := Dead(w, h);
    forall x, y | 0 <= x < w && 0 <= y < h
      ensures NextGen(g, w, h)[x][y] == g[x][y]
    {
      assert NeighbourCount(g, w, h, x, y) == 0;
    }
    GridExt(NextGen(g, w, h), g, w, h);
  }
}
