/** The simulation state of the frame loop in main.c: the board, its
    step buffer and the `running` flag, with the per-frame sequence of
    edit, run toggle, step and reset. Window, camera, drawing and the
    polling of keys and mouse stay outside: each frame's input arrives
    already decoded, as an `Input`. */
module Game {
  import opened Rules
  import opened Sizing

  /** What the frame loop reads from the keyboard and mouse in one frame:
      Space held, left / right mouse button held, `W` pressed this frame,
      `E` held, `R` pressed this frame, and the cell under the cursor. */
  datatype Input = Input(space: bool, left: bool, right: bool,
                         wPressed: bool, eDown: bool, rPressed: bool,
                         dx: int, dy: int)

  /** The part of the loop's state that the model follows. */
  datatype State = State(cells: Grid, running: bool)

  /** The frame writes the cell under the cursor: no Space, and a button held. */
  predicate WritesCell(inp: Input)
  {
    !inp.space && (inp.left || inp.right)
  }

  /** The program indexes the board with the cursor's cell without checking
      it, so a frame that writes a cell needs that cell on the board. */
  predicate EditInRange(inp: Input, w: nat, h: nat)
  {
    WritesCell(inp) ==> 0 <= inp.dx < w && 0 <= inp.dy < h
  }

  /** `g` with cell (x, y) set to `v`. */
  function Paint(g: Grid, w: nat, h: nat, x: int, y: int, v: bool): (r: Grid)
    requires IsGrid(g, w, h) && 0 <= x < w && 0 <= y < h
    ensures IsGrid(r, w, h) && r[x][y] == v
    ensures forall a, b :: 0 <= a < w && 0 <= b < h && (a != x || b != y) ==> r[a][b] == g[a][b]
  {
    g[x := g[x][y := v]]
  }

  /** The unchecked write is reachable without panning or zooming: a 10 x 10
      window with 4-pixel tiles draws a 2 x 2 board on its top-left 8 x 8
      pixels, and a left click at pixel (9, 0) names column 2, off the board. */
  lemma ClickBesideBoard()
    ensures GridSize(10, 10, 4) == (2, 2)
    ensures var inp := Input(false, true, false, false, false, false, CellOf(9, 4), CellOf(0, 4));
      WritesCell(inp) && !EditInRange(inp, 2, 2)
  {
  }

  /** The board after the mouse edit of one frame: with Space held the mouse
      pans the camera and no cell changes; otherwise the left button makes the
      cell under the cursor alive and, failing that, the right one kills it. */
  function Edited(g: Grid, w: nat, h: nat, inp: Input): (r: Grid)
    requires IsGrid(g, w, h) && EditInRange(inp, w, h)
    ensures IsGrid(r, w, h)
    ensures !WritesCell(inp) ==> r == g
    ensures WritesCell(inp) ==> r[inp.dx][inp.dy] == inp.left
    ensures forall a, b :: 0 <= a < w && 0 <= b < h && (a != inp.dx || b != inp.dy) ==> r[a][b] == g[a][b]
  {
    if inp.space then g
    else if inp.left then Paint(g, w, h, inp.dx, inp.dy, true)
    else if inp.right then Paint(g, w, h, inp.dx, inp.dy, false)
    else g
  }

  /** One pass of the frame loop, in the program's order: edit, toggle of
      `running` on `W`, a step when `E` is held or the simulation runs,
      then the reset on `R`. */
  function NextFrame(s: State, w: nat, h: nat, inp: Input): (r: State)
    requires IsGrid(s.cells, w, h) && EditInRange(inp, w, h)
    ensures IsGrid(r.cells, w, h)
    ensures r.running <==> (s.running != inp.wPressed)
    ensures inp.rPressed ==> r.cells == Dead(w, h)
    ensures !inp.rPressed && !inp.eDown && !r.running ==> r.cells == Edited(s.cells, w, h, inp)
    ensures !inp.rPressed && (inp.eDown || r.running) ==> r.cells == NextGen(Edited(s.cells, w, h, inp), w, h)
  {
    var edited := Edited(s.cells, w, h, inp);
    var running := if inp.wPressed then !s.running else s.running;
    var stepped := if inp.eDown || running then NextGen(edited, w, h) else edited;
    State(if inp.rPressed then Dead(w, h) else stepped, running)
  }

  /** A frame with no input leaves a paused board exactly as it was. */
  lemma PausedIdleFrame(s: State, w: nat, h: nat, inp: Input)
    requires IsGrid(s.cells, w, h) && !s.running
    requires !inp.left && !inp.right && !inp.wPressed && !inp.eDown && !inp.rPressed
    ensures NextFrame(s, w, h, inp) == s
  {
  }

  /** A running simulation advances one generation per frame without input. */
  lemma RunningIdleFrame(s: State, w: nat, h: nat, inp: Input)
    requires IsGrid(s.cells, w, h) && s.running
    requires !inp.left && !inp.right && !inp.wPressed && !inp.eDown && !inp.rPressed
    ensures NextFrame(s, w, h, inp) == State(NextGen(s.cells, w, h), true)
  {
  }

  /** `W` acts before the step decision: pressing it while running stops the
      simulation in the same frame (unless `E` is held), and pressing it while
      paused steps in the same frame. */
  lemma ToggleBeforeStep(s: State, w: nat, h: nat, inp: Input)
    requires IsGrid(s.cells, w, h) && EditInRange(inp, w, h)
    requires inp.wPressed && !inp.eDown && !inp.rPressed
    ensures s.running ==> NextFrame(s, w, h, inp) == State(Edited(s.cells, w, h, inp), false)
    ensures !s.running ==> NextFrame(s, w, h, inp) == State(NextGen(Edited(s.cells, w, h, inp), w, h), true)
  {
  }

  /** `R` clears the board, whatever else happened in the frame, and leaves
      `running` as the toggle set it: a running simulation keeps running. */
  lemma ResetKeepsRunning(s: State, w: nat, h: nat, inp: Input)
    requires IsGrid(s.cells, w, h) && EditInRange(inp, w, h)
    requires inp.rPressed && !inp.wPressed
    ensures NextFrame(s, w, h, inp) == State(Dead(w, h), s.running)
  {
  }

  /** memcpy of one W_TILES x H_TILES board onto another. */
  method Copy(src: array2<bool>, dst: array2<bool>)
    requires src.Length0 == dst.Length0 && src.Length1 == dst.Length1
    modifies dst
    ensures forall x, y :: 0 <= x < dst.Length0 && 0 <= y < dst.Length1 ==> dst[x, y] == old(src[x, y])
  {
    forall x, y | 0 <= x < dst.Length0 && 0 <= y < dst.Length1 {
      dst[x, y] := src[x, y];
    }
  }

  class Life {
    /** W_TILES and H_TILES. */
    const width: nat
    const height: nat
    /** The board, `board[x, y]` true for a live cell, and the buffer the step writes into. */
    const board: array2<bool>
    const buffBoard: array2<bool>
    /** Set while the simulation runs by itself. */
    var running: bool

    ghost predicate Valid()
    {
      && board.Length0 == width && board.Length1 == height
      && buffBoard.Length0 == width && buffBoard.Length1 == height
      && board != buffBoard
    }

    /** The board as a grid value. */
    ghost function Cells(): (g: Grid)
      requires Valid()
      reads board
      ensures IsGrid(g, width, height)
      ensures forall x, y :: 0 <= x < width && 0 <= y < height ==> g[x][y] == board[x, y]
    {
      seq(width, x requires 0 <= x < width reads board =>
        seq(height, y requires 0 <= y < height reads board => board[x, y]))
    }

    /** Start-up: the grid is sized from the window and tile sizes by C's
        integer division, and every cell starts dead. The board is a
        variable-length array, so its sizes may not be negative. */
    constructor (widthPx: int, heightPx: int, tile: int)
      requires tile > 0
      requires TruncDiv(widthPx, tile) >= 0 && TruncDiv(heightPx, tile) >= 0
      ensures Valid() && fresh(board) && fresh(buffBoard)
      ensures (width, height) == GridSize(widthPx, heightPx, tile)
      ensures Cells() == Dead(width, height) && !running
    {
      width := TruncDiv(widthPx, tile);
      height := TruncDiv(heightPx, tile);
      board := new bool[TruncDiv(widthPx, tile), TruncDiv(heightPx, tile)];
      buffBoard := new bool[TruncDiv(widthPx, tile), TruncDiv(heightPx, tile)];
      new;
      var i := 0;
      while i < width
        invariant 0 <= i <= width
        invariant forall x, y :: 0 <= x < i && 0 <= y < height ==> !board[x, y]
      {
        var j := 0;
        while j < height
          invariant 0 <= j <= height
          invariant forall x, y :: 0 <= x < i && 0 <= y < height ==> !board[x, y]
          invariant forall y :: 0 <= y < j ==> !board[i, y]
        {
          board[i, j] := false;
          j := j + 1;
        }
        i := i + 1;
      }
      running := false;
      GridExt(Cells(), Dead(width, height), width, height);
    }

    /** Live neighbours of cell (i, j), counted as the program does: the
        eight directions in turn, skipping those that leave the board. */
    method CountLive(i: nat, j: nat) returns (total: nat)
      requires Valid() && i < width && j < height
      ensures total == NeighbourCount(Cells(), width, height, i, j)
    {
      total := 0;
      for d := 0 to |Directions|
        invariant total == CountFirst(Cells(), width, height, i, j, d)
      {
        var newX := i + Directions[d].0;
        var newY := j + Directions[d].1;
        if 0 <= newX < width && 0 <= newY < height {
          if board[newX, newY] {
            total := total + 1;
          }
        }
      }
      CountAllDirections(Cells(), width, height, i, j);
    }

    /** The step's update of one buffer cell, which holds the cell's old value. */
    method UpdateCell(i: nat, j: nat)
      requires Valid() && i < width && j < height
      requires buffBoard[i, j] == board[i, j]
      modifies buffBoard
      ensures buffBoard[i, j] == NextGen(Cells(), width, height)[i][j]
      ensures forall x, y :: 0 <= x < width && 0 <= y < height && (x != i || y != j) ==> buffBoard[x, y] == old(buffBoard[x, y])
    {
      var total := CountLive(i, j);
      if total < 2 || total > 3 {
        buffBoard[i, j] := false;
      }
      if total == 3 && !board[i, j] {
        buffBoard[i, j] := true;
      }
    }

    /** One generation: copy the board into the buffer, update the buffer
        cell by cell from counts taken on the untouched board, copy it back.
        The result is the next generation of the old board as a whole. */
    method Step()
      requires Valid()
      modifies board, buffBoard
      ensures Cells() == NextGen(old(Cells()), width, height)
    {
      ghost var g := Cells();
      ghost var next := NextGen(g, width, height);
      Copy(board, buffBoard);
      var i := 0;
      while i < width
        invariant 0 <= i <= width
        invariant Cells() == g
        invariant forall x, y :: 0 <= x < i && 0 <= y < height ==> buffBoard[x, y] == next[x][y]
        invariant forall x, y :: i <= x < width && 0 <= y < height ==> buffBoard[x, y] == g[x][y]
      {
        var j := 0;
        while j < height
          invariant 0 <= j <= height
          invariant Cells() == g
          invariant forall x, y :: 0 <= x < i && 0 <= y < height ==> buffBoard[x, y] == next[x][y]
          invariant forall y :: 0 <= y < j ==> buffBoard[i, y] == next[i][y]
          invariant forall x, y :: i <= x < width && 0 <= y < height && (x != i || j <= y) ==> buffBoard[x, y] == g[x][y]
        {
          UpdateCell(i, j);
          j := j + 1;
        }
        i := i + 1;
      }
      Copy(buffBoard, board);
      GridExt(Cells(), next, width, height);
    }

    /** The mouse edit of one frame. */
    method Edit(inp: Input)
      requires Valid() && EditInRange(inp, width, height)
      modifies board
      ensures Cells() == Edited(old(Cells()), width, height, inp)
    {
      if !inp.space {
        if inp.left {
          board[inp.dx, inp.dy] := true;
        } else if inp.right {
          board[inp.dx, inp.dy] := false;
        }
      }
      GridExt(Cells(), Edited(old(Cells()), width, height, inp), width, height);
    }

    /** The reset on `R`: every cell dead; `running` is left alone. */
    method Clear()
      requires Valid()
      modifies board
      ensures Cells() == Dead(width, height)
    {
      var i := 0;
      while i < width
        invariant 0 <= i <= width
        invariant forall x, y :: 0 <= x < i && 0 <= y < height ==> !board[x, y]
      {
        var j := 0;
        while j < height
          invariant 0 <= j <= height
          invariant forall x, y :: 0 <= x < i && 0 <= y < height ==> !board[x, y]
          invariant forall y :: 0 <= y < j ==> !board[i, y]
        {
          board[i, j] := false;
          j := j + 1;
        }
        i := i + 1;
      }
      GridExt(Cells(), Dead(width, height), width, height);
    }

    /** One pass of the frame loop over the simulation state. */
    method Frame(inp: Input)
      requires Valid() && EditInRange(inp, width, height)
      modifies this, board, buffBoard
      ensures State(Cells(), running) == NextFrame(old(State(Cells(), running)), width, height, inp)
    {
      Edit(inp);
      if inp.wPressed {
        running := !running;
      }
      if inp.eDown || running {
        Step();
      }
      if inp.rPressed {
        Clear();
      }
    }
  }
}
