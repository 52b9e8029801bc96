/** The glider: on a grid large enough to hold it, four generations move
    it one cell along both axes, shape intact. The proof runs in the
    unbounded plane and is carried over to the grid by showing that edge
    clipping is invisible to a pattern that stays on the grid. */
module Glider {
  import opened Rules
  import opened Patterns

  /** The glider's four phases, and the first one moved by (1, 1), in
      coordinates relative to the top-left corner of its 4 x 4 box. */
  function GliderShape(k: nat): set<(int, int)>
  {
    if k == 0 then {(1, 0), (2, 1), (0, 2), (1, 2), (2, 2)}
    else if k == 1 then {(0, 1), (2, 1), (1, 2), (2, 2), (1, 3)}
    else if k == 2 then {(2, 1), (0, 2), (2, 2), (1, 3), (2, 3)}
    else if k == 3 then {(1, 1), (2, 2), (3, 2), (1, 3), (2, 3)}
    else {(2, 1), (3, 2), (1, 3), (2, 3), (3, 3)}
  }

  /** `s` moved by (x, y). */
  function Shift(s: set<(int, int)>, x: int, y: int): set<(int, int)>
  {
    set p | p in s :: (p.0 + x, p.1 + y)
  }

  /** A cell is in the moved pattern iff the cell moved back is in the original. */
  lemma InShift(s: set<(int, int)>, x: int, y: int, a: int, b: int)
    ensures (a, b) in Shift(s, x, y) <==> (a - x, b - y) in s
  {
  }

  /** Live neighbours of (a, b) in the unbounded plane whose live cells are `s`. */
  function PlaneCount(s: set<(int, int)>, a: int, b: int): (n: nat)
    ensures n <= 8
  {
    (if (a - 1, b - 1) in s then 1 else 0) + (if (a - 1, b) in s then 1 else 0) +
    (if (a - 1, b + 1) in s then 1 else 0) + (if (a, b - 1) in s then 1 else 0) +
    (if (a, b + 1) in s then 1 else 0) + (if (a + 1, b - 1) in s then 1 else 0) +
    (if (a + 1, b) in s then 1 else 0) + (if (a + 1, b + 1) in s then 1 else 0)
  }

  /** Moving a pattern moves its neighbour counts with it. */
  lemma PlaneCountShift(s: set<(int, int)>, x: int, y: int, a: int, b: int)
    ensures PlaneCount(Shift(s, x, y), a, b) == PlaneCount(s, a - x, b - y)
  {
  }

  /** Every live cell of `s` lies on the w x h grid. */
  predicate OnGrid(s: set<(int, int)>, w: nat, h: nat)
  {
    forall p | p in s :: 0 <= p.0 < w && 0 <= p.1 < h
  }

  /** For a pattern that lies on the grid, the clipped count equals the count
      in the unbounded plane: skipping off-grid offsets loses no live cell. */
  lemma ClippingInvisible(s: set<(int, int)>, w: nat, h: nat, a: int, b: int)
    requires OnGrid(s, w, h)
    ensures NeighbourCount(Pattern(w, h, s), w, h, a, b) == PlaneCount(s, a, b)
  {
  }

  /** One generation in the unbounded plane takes `s` to `s'`. */
  ghost predicate PlaneStep(s: set<(int, int)>, s': set<(int, int)>)
  {
    forall a, b {:trigger PlaneCount(s, a, b)} :: NextCell((a, b) in s, PlaneCount(s, a, b)) == ((a, b) in s')
  }

  /** A plane step between two patterns that both lie on the grid is a grid step. */
  lemma GridFollowsPlane(s: set<(int, int)>, s': set<(int, int)>, w: nat, h: nat)
    requires OnGrid(s, w, h) && OnGrid(s', w, h) && PlaneStep(s, s')
    ensures NextGen(Pattern(w, h, s), w, h) == Pattern(w, h, s')
  {
    var g := Pattern(w, h, s);
    forall a, b | 0 <= a < w && 0 <= b < h
      ensures NextGen(g, w, h)[a][b] == Pattern(w, h, s')[a][b]
    {
      ClippingInvisible(s, w, h, a, b);
      assert NextCell((a, b) in s, PlaneCount(s, a, b)) == ((a, b) in s');
    }
    GridExt(NextGen(g, w, h), Pattern(w, h, s'), w, h);
  }

  /** A plane step is unaffected by moving both patterns by the same amount. */
  lemma PlaneStepShift(s: set<(int, int)>, s': set<(int, int)>, x: int, y: int)
    requires PlaneStep(s, s')
    ensures PlaneStep(Shift(s, x, y), Shift(s', x, y))
  {
    forall a, b
      ensures NextCell((a, b) in Shift(s, x, y), PlaneCount(Shift(s, x, y), a, b)) == ((a, b) in Shift(s', x, y))
    {
      InShift(s, x, y, a, b);
      InShift(s', x, y, a, b);
      PlaneCountShift(s, x, y, a, b);
      assert NextCell((a - x, b - y) in s, PlaneCount(s, a - x, b - y)) == ((a - x, b - y) in s');
    }
  }

  /** In the plane, each cell of phase k of the glider takes its value in phase k + 1. */
  lemma PhaseCell(k: nat, a: int, b: int)
    requires k < 4
    ensures NextCell((a, b) in GliderShape(k), PlaneCount(GliderShape(k), a, b)) == ((a, b) in GliderShape(k + 1))
  {
    if k == 0 {
    } else if k == 1 {
    } else if k == 2 {
    } else {
    }
  }

  /** In the plane, phase k of the glider becomes phase k + 1. */
  lemma PhaseStep(k: nat)
    requires k < 4
    ensures PlaneStep(GliderShape(k), GliderShape(k + 1))
  {
    forall a, b
      ensures NextCell((a, b) in GliderShape(k), PlaneCount(GliderShape(k), a, b)) == ((a, b) in GliderShape(k + 1))
    {
      PhaseCell(k, a, b);
    }
  }

  /** Every phase lies within the 4 x 4 box at (x, y). */
  lemma PhaseOnGrid(k: nat, w: nat, h: nat, x: int, y: int)
    requires 0 <= x && x + 3 < w && 0 <= y && y + 3 < h
    ensures OnGrid(Shift(GliderShape(k), x, y), w, h)
  {
  }

  /** The last phase is the first one moved by (1, 1). */
  lemma LastPhaseIsFirstMoved(x: int, y: int)
    ensures Shift(GliderShape(4), x, y) == Shift(GliderShape(0), x + 1, y + 1)
  {
  }

  /** One generation takes phase k of a glider at (x, y) to phase k + 1. */
  lemma GliderGeneration(k: nat, w: nat, h: nat, x: int, y: int)
    requires k < 4
    requires 0 <= x && x + 3 < w && 0 <= y && y + 3 < h
    ensures NextGen(Pattern(w, h, Shift(GliderShape(k), x, y)), w, h) == Pattern(w, h, Shift(GliderShape(k + 1), x, y))
  {
    PhaseStep(k);
    PlaneStepShift(GliderShape(k), GliderShape(k + 1), x, y);
    PhaseOnGrid(k, w, h, x, y);
    PhaseOnGrid(k + 1, w, h, x, y);
    GridFollowsPlane(Shift(GliderShape(k), x, y), Shift(GliderShape(k + 1), x, y), w, h);
  }

  /** After four generations a glider whose box fits on the grid has moved
      by exactly (1, 1), shape preserved. */
  lemma GliderMoves(w: nat, h: nat, x: int, y: int)
    requires 0 <= x && x + 3 < w && 0 <= y && y + 3 < h
    ensures var g := Pattern(w, h, Shift(GliderShape(0), x, y));
      NextGen(NextGen(NextGen(NextGen(g, w, h), w, h), w, h), w, h) == Pattern(w, h, Shift(GliderShape(0), x + 1, y + 1))
  {
    var g1 := Pattern(w, h, Shift(GliderShape(1), x, y));
    var g2 := Pattern(w, h, Shift(GliderShape(2), x, y));
    var g3 := Pattern(w, h, Shift(GliderShape(3), x, y));
    GliderGeneration(0, w, h, x, y);
    GliderGeneration(1, w, h, x, y);
    GliderGeneration(2, w, h, x, y);
    GliderGeneration(3, w, h, x, y);
    assert NextGen(NextGen(NextGen(g1, w, h), w, h), w, h) == Pattern(w, h, Shift(GliderShape(4), x, y)) by {
      assert NextGen(g1, w, h) == g2;
      assert NextGen(g2, w, h) == g3;
    }
    LastPhaseIsFirstMoved(x, y);
  }
}
