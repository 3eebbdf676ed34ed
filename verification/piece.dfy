/** piece.py: the falling piece. It keeps its shape matrix, its colour, the board
    position (x, y) of the matrix's top-left cell and a `locked` flag, and moves,
    turns, drops and locks itself on the shared board. */
module Pieces {
  import opened Geometry
  import opened Settings
  import opened Board

  class Piece {
    /** The shared board (the global `grid` of settings.py). */
    const grid: array2<int>
    /** `self.label`, the shape's letter in the table. */
    var shapeLabel: string
    var shape: Matrix
    var color: int
    var x: int
    var y: int
    var locked: bool

    /** A tetromino shape whose colour is its largest cell, lying inside the board and
        not above its top. */
    ghost predicate Valid()
      reads this
    {
      IsBoard(grid) && WellShaped(shape) && color == MaxCell(shape) && 1 <= color <= 7 &&
      y >= 0 && Inside(shape, x, y)
    }

    /** `Piece()` (piece.py:6-11), with the random choice given as the table index `k`:
        spawned centred at the top, unlocked, coloured with the largest cell. */
    constructor (grid: array2<int>, k: nat)
      requires IsBoard(grid) && k < 7
      ensures Valid() && this.grid == grid
      ensures shapeLabel == SHAPES[k].0 && shape == SHAPES[k].1 && color == k + 1
      ensures x == WIDTH / 2 - |shape[0]| / 2 && y == 0 && !locked
    {
      SevenTetrominoes();
      ShapeColour(k);
      SpawnInside(SHAPES[k].1);
      this.grid := grid;
      shapeLabel, shape := SHAPES[k].0, SHAPES[k].1;
      color := MaxCell(SHAPES[k].1);
      x := WIDTH / 2 - |SHAPES[k].1[0]| / 2;
      y := 0;
      locked := false;
    }

    /** `copy.deepcopy(piece)` (game.py:295): the same field values in a new object
        that reads the same board. */
    constructor Copy(p: Piece)
      requires p.Valid()
      ensures Valid() && grid == p.grid
      ensures shapeLabel == p.shapeLabel && shape == p.shape && color == p.color
      ensures x == p.x && y == p.y && locked == p.locked
    {
      grid := p.grid;
      shapeLabel, shape, color := p.shapeLabel, p.shape, p.color;
      x, y, locked := p.x, p.y, p.locked;
    }

    /** The reset of a piece that comes back out of the hold slot (game.py:202-203):
        it returns to the spawn position and nothing else about it changes. */
    method Respawn()
      requires Valid()
      modifies this`x, this`y
      ensures Valid() && x == SpawnX(shape) && y == 0
    {
      SpawnInside(shape);
      x := WIDTH / 2 - |shape[0]| / 2;
      y := 0;
    }

    /** `is_valid(dx, dy)` (piece.py:46-66). Despite its name it answers true when the
        move is BLOCKED. It changes nothing. */
    method IsValid(dx: int, dy: int) returns (blocked: bool)
      requires Valid()
      ensures blocked == old(Collides(Snapshot(grid), shape, x + dx, y + dy))
    {
      blocked := Scan(grid, shape, x + dx, y + dy);
    }

    /** `stop` (piece.py:30-44): writes the colour into exactly the cells under the
        non-zero cells of the shape and marks the piece locked. */
    method Stop()
      requires Valid()
      modifies this`locked, grid
      ensures Valid() && locked
      ensures Snapshot(grid) == Stamp(old(Snapshot(grid)), shape, x, y, color)
    {
      Paint(grid, shape, x, y, color);
      locked := true;
    }

    /** `move(dx, dy)` (piece.py:13-28): translate when the move is free; lock when a
        step down is blocked; otherwise do nothing at all. */
    method Move(dx: int, dy: int)
      requires Valid() && dy >= 0
      modifies this, grid
      ensures Valid()
      ensures shapeLabel == old(shapeLabel) && shape == old(shape) && color == old(color)
      ensures !old(Collides(Snapshot(grid), shape, x + dx, y + dy)) ==>
        x == old(x) + dx && y == old(y) + dy && locked == old(locked) &&
        unchanged(grid)
      ensures old(Collides(Snapshot(grid), shape, x + dx, y + dy)) && dy == 1 ==>
        x == old(x) && y == old(y) && locked &&
        Snapshot(grid) == Stamp(old(Snapshot(grid)), shape, x, y, color)
      ensures old(Collides(Snapshot(grid), shape, x + dx, y + dy)) && dy != 1 ==>
        x == old(x) && y == old(y) && locked == old(locked) &&
        unchanged(grid)
    {
      var blocked := IsValid(dx, dy);
      if !blocked {
        FreeIsInside(Snapshot(grid), shape, x + dx, y + dy);
        x := x + dx;
        y := y + dy;
      } else if dy == 1 {
        Stop();
      }
    }

    /** `rotate` (piece.py:68-91): the shape becomes its clockwise turn when the turned
        shape fits where the piece is, and stays as it was otherwise (no wall kicks). */
    method Rotate()
      requires Valid()
      modifies this`shape
      ensures Valid()
      ensures shape == if Collides(Snapshot(grid), RotateCw(old(shape)), x, y) then old(shape)
                       else RotateCw(old(shape))
    {
      var prevShape := shape;
      shape := RotateCw(shape);
      var blocked := Scan(grid, shape, x, y);
      if blocked {
        shape := prevShape;
      } else {
        TurnFits(Snapshot(grid), prevShape, shape, x, y);
      }
    }

    /** `rotate_ccw` (piece.py:93-116): as `rotate`, with the counter-clockwise turn. */
    method RotateCounter()
      requires Valid()
      modifies this`shape
      ensures Valid()
      ensures shape == if Collides(Snapshot(grid), RotateCcw(old(shape)), x, y) then old(shape)
                       else RotateCcw(old(shape))
    {
      var oldShape := shape;
      shape := RotateCcw(shape);
      var blocked := Scan(grid, shape, x, y);
      if blocked {
        shape := oldShape;
      } else {
        TurnFits(Snapshot(grid), oldShape, shape, x, y);
      }
    }

    /** The loop `while not self.is_valid(0, 1): self.y += 1` of `instant_drop`
        (piece.py:128-129), also run on the copy that marks where the piece would land
        (game.py:296-297): the piece moves straight down to its landing row. */
    method Fall()
      requires Valid()
      modifies this`y
      ensures Valid() && old(y) <= y == Landing(old(Snapshot(grid)), shape, x, old(y))
    {
      y := Drop(grid, shape, x, y);
    }

    /** `instant_drop` (piece.py:118-130): fall to the landing row, then lock there. */
    method InstantDrop()
      requires Valid()
      modifies this, grid
      ensures Valid() && locked
      ensures shapeLabel == old(shapeLabel) && shape == old(shape) && color == old(color) && x == old(x)
      ensures old(y) <= y == Landing(old(Snapshot(grid)), shape, x, old(y))
      ensures Snapshot(grid) == Stamp(old(Snapshot(grid)), shape, x, y, color)
    {
      Fall();
      Stop();
    }
  }
}
