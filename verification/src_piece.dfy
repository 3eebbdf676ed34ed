/** src/piece.py: the earlier falling piece. It has no `locked` flag: locking writes
    the colour into the board and then asks the game for the next piece
    (`game.new_piece()`), which here is the piece the locking method returns. The
    shape is drawn from the labelled table of settings.py. */
module SrcPieces {
  import opened Geometry
  import opened Settings
  import opened Board

  class Piece {
    /** The shared board (the global `grid`). */
    const grid: array2<int>
    /** `self.label`, the shape's letter in the table. */
    var shapeLabel: string
    var shape: Matrix
    var color: int
    var x: int
    var y: int

    /** A tetromino shape whose colour is its largest cell, lying inside the board and
        not above its top. */
    ghost predicate Valid()
      reads this
    {
      IsBoard(grid) && WellShaped(shape) && color == MaxCell(shape) && 1 <= color <= 7 &&
      y >= 0 && Inside(shape, x, y)
    }

    /** `Piece()` (src/piece.py:5-9), with the random choice given as the table index
        `k`: spawned centred at the top, coloured with the largest cell. */
    constructor (grid: array2<int>, k: nat)
      requires IsBoard(grid) && k < 7
      ensures Valid() && this.grid == grid
      ensures shapeLabel == SHAPES[k].0 && shape == SHAPES[k].1 && color == k + 1
      ensures x == WIDTH / 2 - |shape[0]| / 2 && y == 0
    {
      SevenTetrominoes();
      ShapeColour(k);
      SpawnInside(SHAPES[k].1);
      this.grid := grid;
      shapeLabel, shape := SHAPES[k].0, SHAPES[k].1;
      color := MaxCell(SHAPES[k].1);
      x := WIDTH / 2 - |SHAPES[k].1[0]| / 2;
      y := 0;
    }

    /** `is_valid(dx, dy)` (src/piece.py:27-37): true when the move is BLOCKED. It
        changes nothing. */
    method IsValid(dx: int, dy: int) returns (blocked: bool)
      requires Valid()
      ensures blocked == old(Collides(Snapshot(grid), shape, x + dx, y + dy))
    {
      blocked := Scan(grid, shape, x + dx, y + dy);
    }

    /** `stop` (src/piece.py:18-25): writes the integer colour into exactly the covered
        cells, then hands over to the next piece, spawned from table index `k`. The
        piece itself is not changed. */
    method Stop(k: nat) returns (next: Piece)
      requires Valid() && k < 7
      modifies grid
      ensures Snapshot(grid) == Stamp(old(Snapshot(grid)), shape, x, y, color)
      ensures fresh(next) && next.Valid() && next.grid == grid
      ensures next.shapeLabel == SHAPES[k].0 && next.shape == SHAPES[k].1 && next.color == k + 1
      ensures next.x == WIDTH / 2 - |next.shape[0]| / 2 && next.y == 0
    {
      Paint(grid, shape, x, y, color);
      next := new Piece(grid, k);
    }

    /** `move(dx, dy)` (src/piece.py:11-16): translate when the move is free; when a
        step down is blocked, lock and return the next piece; otherwise do nothing. */
    method Move(dx: int, dy: int, k: nat) returns (next: Piece?)
      requires Valid() && dy >= 0 && k < 7
      modifies this, grid
      ensures Valid()
      ensures shapeLabel == old(shapeLabel) && shape == old(shape) && color == old(color)
      ensures (next != null) == (old(Collides(Snapshot(grid), shape, x + dx, y + dy)) && dy == 1)
      ensures !old(Collides(Snapshot(grid), shape, x + dx, y + dy)) ==>
        x == old(x) + dx && y == old(y) + dy && unchanged(grid)
      ensures old(Collides(Snapshot(grid), shape, x + dx, y + dy)) ==> x == old(x) && y == old(y)
      ensures next != null ==>
        fresh(next) && next.Valid() && next.grid == grid &&
        next.shapeLabel == SHAPES[k].0 && next.shape == SHAPES[k].1 && next.color == k + 1 &&
        next.x == SpawnX(SHAPES[k].1) && next.y == 0 &&
        Snapshot(grid) == Stamp(old(Snapshot(grid)), shape, x, y, color)
      ensures old(Collides(Snapshot(grid), shape, x + dx, y + dy)) && dy != 1 ==>
        unchanged(grid)
    {
      next := null;
      var blocked := IsValid(dx, dy);
      if !blocked {
        FreeIsInside(Snapshot(grid), shape, x + dx, y + dy);
        x := x + dx;
        y := y + dy;
      } else if dy == 1 {
        next := Stop(k);
      }
    }

    /** `rotate` (src/piece.py:39-52). Unlike piece.py, the occupied-cell branch puts
        the old shape back without returning, so the scan goes on over the turned
        cells; a later blocked cell can only put the old shape back again. The outcome
        is the same: the turned shape when it fits where the piece is, the old one
        otherwise. */
    method Rotate()
      requires Valid()
      modifies this`shape
      ensures Valid()
      ensures shape == if Collides(Snapshot(grid), RotateCw(old(shape)), x, y) then old(shape)
                       else RotateCw(old(shape))
    {
      var prevShape := shape;
      shape := RotateCw(shape);
      shape := KeepOrTurn(grid, prevShape, shape, x, y);
      if !Collides(Snapshot(grid), RotateCw(prevShape), x, y) {
        TurnFits(Snapshot(grid), prevShape, shape, x, y);
      }
    }

    /** `instant_drop` (src/piece.py:54-57): fall to the landing row, then lock there
        and return the next piece. */
    method InstantDrop(k: nat) returns (next: Piece)
      requires Valid() && k < 7
      modifies this`y, grid
      ensures old(y) <= y == Landing(old(Snapshot(grid)), shape, x, old(y))
      ensures Snapshot(grid) == Stamp(old(Snapshot(grid)), shape, x, y, color)
      ensures fresh(next) && next.Valid() && next.grid == grid
      ensures next.shapeLabel == SHAPES[k].0 && next.shape == SHAPES[k].1 && next.color == k + 1
      ensures next.x == SpawnX(SHAPES[k].1) && next.y == 0
    {
      y := Drop(grid, shape, x, y);
      next := Stop(k);
    }
  }

  /** The loop of `rotate` (src/piece.py:42-52) over the cells of the turned shape at
      (px, py): the shape in force starts as `turned`; a cell out of the columns or at
      row HEIGHT puts `prev` back and ends the scan, a cell on an occupied board cell
      puts `prev` back and the scan goes on. */
  method KeepOrTurn(grid: array2<int>, prev: Matrix, turned: Matrix, px: int, py: int)
    returns (s: Matrix)
    requires IsBoard(grid)
    ensures Collides(Snapshot(grid), turned, px, py) ==> s == prev
    ensures !Collides(Snapshot(grid), turned, px, py) ==> s == turned
  {
    ghost var b := Snapshot(grid);
    s := turned;
    ghost var hit := false;
    var i := 0;
    while i < |turned|
      invariant 0 <= i <= |turned|
      invariant hit <==>
        exists a, c :: 0 <= a < i && 0 <= c < |turned[a]| && turned[a][c] != 0 &&
          CellBlocked(b, px + c, py + a)
      invariant s == if hit then prev else turned
    {
      var j := 0;
      while j < |turned[i]|
        invariant 0 <= j <= |turned[i]|
        invariant hit <==>
          (exists a, c :: 0 <= a < i && 0 <= c < |turned[a]| && turned[a][c] != 0 &&
            CellBlocked(b, px + c, py + a)) ||
          (exists c :: 0 <= c < j && turned[i][c] != 0 && CellBlocked(b, px + c, py + i))
        invariant s == if hit then prev else turned
      {
        if turned[i][j] != 0 {
          var newX := px + j;
          var newY := py + i;
          if newX < 0 || newX >= WIDTH || newY >= HEIGHT {
            assert CellBlocked(b, px + j, py + i);
            return prev;
          }
          if newY >= 0 && grid[newY, newX] != 0 {
            s := prev;
            hit := true;
          }
        }
        j := j + 1;
      }
      i := i + 1;
    }
  }
}
