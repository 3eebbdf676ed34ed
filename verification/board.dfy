/** The playing field: the shared `grid` of settings.py, here a HEIGHT x WIDTH array of
    colour ids (0 = empty) handed to every piece and to the game. The functions below
    describe it as a value (a list of rows) so that the operations on pieces and on
    the game can be stated and reasoned about as functions of the board. */
module Board {
  import opened Geometry
  import opened Settings

  type Rows = seq<seq<int>>

  /** The board array has the fixed size HEIGHT x WIDTH. */
  predicate IsBoard(g: array2<int>) {
    g.Length0 == HEIGHT && g.Length1 == WIDTH
  }

  /** HEIGHT rows of WIDTH cells. */
  predicate IsGrid(b: Rows) {
    |b| == HEIGHT && forall r :: 0 <= r < |b| ==> |b[r]| == WIDTH
  }

  /** Every cell is empty or one of the seven colour ids. */
  predicate InRange(b: Rows)
    requires IsGrid(b)
  {
    forall r, c :: 0 <= r < HEIGHT && 0 <= c < WIDTH ==> 0 <= b[r][c] <= 7
  }

  /** The first `n` cells of row `r` of the board array. */
  ghost function RowPrefix(g: array2<int>, r: int, n: int): (row: seq<int>)
    requires 0 <= r < g.Length0 && 0 <= n <= g.Length1
    reads g
    ensures |row| == n && forall c :: 0 <= c < n ==> row[c] == g[r, c]
  {
    if n == 0 then [] else RowPrefix(g, r, n - 1) + [g[r, n - 1]]
  }

  /** The first `n` rows of the board array. */
  ghost function RowsPrefix(g: array2<int>, n: int): (b: Rows)
    requires 0 <= n <= g.Length0
    reads g
    ensures |b| == n
    ensures forall r :: 0 <= r < n ==> |b[r]| == g.Length1
    ensures forall r, c :: 0 <= r < n && 0 <= c < g.Length1 ==> b[r][c] == g[r, c]
  {
    if n == 0 then [] else RowsPrefix(g, n - 1) + [RowPrefix(g, n - 1, g.Length1)]
  }

  /** The contents of the board array as a list of rows. */
  ghost function Snapshot(g: array2<int>): (b: Rows)
    reads g
    ensures |b| == g.Length0
    ensures forall r :: 0 <= r < g.Length0 ==> |b[r]| == g.Length1
    ensures forall r, c :: 0 <= r < g.Length0 && 0 <= c < g.Length1 ==> b[r][c] == g[r, c]
  {
    RowsPrefix(g, g.Length0)
  }

  lemma {:induction false} SnapshotIsGrid(g: array2<int>)
    requires IsBoard(g)
    ensures IsGrid(Snapshot(g))
  {
  }

  /** A piece cell at (row, col) is blocked: outside the columns, at or below the
      bottom row, or on an occupied cell. Rows above the board (row < 0) are checked
      against the columns only. */
  predicate CellBlocked(b: Rows, col: int, row: int)
    requires IsGrid(b)
  {
    col < 0 || col >= WIDTH || row >= HEIGHT || (row >= 0 && b[row][col] != 0)
  }

  /** The test of `is_valid` (piece.py:57-66) and of the rotations: some non-zero cell
      of shape `s` with its top-left corner at column `px`, row `py` is blocked. */
  predicate Collides(b: Rows, s: Matrix, px: int, py: int)
    requires IsGrid(b)
  {
    exists i, j :: 0 <= i < |s| && 0 <= j < |s[i]| && s[i][j] != 0 && CellBlocked(b, px + j, py + i)
  }

  /** Every non-zero cell of `s` at (px, py) lies on the board. */
  predicate Inside(s: Matrix, px: int, py: int) {
    forall i, j :: 0 <= i < |s| && 0 <= j < |s[i]| && s[i][j] != 0 ==>
      0 <= px + j < WIDTH && 0 <= py + i < HEIGHT
  }

  /** The shape at (px, py) covers board cell (row, col) with a non-zero cell. */
  predicate Covers(s: Matrix, px: int, py: int, row: int, col: int) {
    0 <= row - py < |s| && 0 <= col - px < |s[row - py]| && s[row - py][col - px] != 0
  }

  /** The board after locking (`stop`, piece.py:40-44): the covered cells hold the
      piece's colour and every other cell is as before. */
  function Stamp(b: Rows, s: Matrix, px: int, py: int, colour: int): (r: Rows)
    requires IsGrid(b)
    ensures IsGrid(r)
    ensures forall row, col :: 0 <= row < HEIGHT && 0 <= col < WIDTH ==>
      r[row][col] == if Covers(s, px, py, row, col) then colour else b[row][col]
  {
    seq(HEIGHT, row requires 0 <= row < HEIGHT =>
      seq(WIDTH, col requires 0 <= col < WIDTH =>
        if Covers(s, px, py, row, col) then colour else b[row][col]))
  }

  /** Locking a piece of colour 1..7 keeps every cell in 0..7. */
  lemma {:induction false} StampInRange(b: Rows, s: Matrix, px: int, py: int, colour: int)
    requires IsGrid(b) && InRange(b) && 1 <= colour <= 7
    ensures InRange(Stamp(b, s, px, py, colour))
  {
    var r := Stamp(b, s, px, py, colour);
    forall row, col | 0 <= row < HEIGHT && 0 <= col < WIDTH ensures 0 <= r[row][col] <= 7 {
    }
  }

  /** A placement that collides with nothing has its non-zero cells in the columns and
      above the bottom; when it does not start above the board it lies inside. */
  lemma {:induction false} FreeIsInside(b: Rows, s: Matrix, px: int, py: int)
    requires IsGrid(b) && !Collides(b, s, px, py) && py >= 0
    ensures Inside(s, px, py)
  {
    forall i, j | 0 <= i < |s| && 0 <= j < |s[i]| && s[i][j] != 0
      ensures 0 <= px + j < WIDTH && 0 <= py + i < HEIGHT
    {
      assert !CellBlocked(b, px + j, py + i);
    }
  }

  /** A turned tetromino that fits where the piece is keeps the piece valid: still a
      tetromino, the same colour, inside the board. */
  lemma {:induction false} TurnFits(b: Rows, s: Matrix, t: Matrix, px: int, py: int)
    requires IsGrid(b) && WellShaped(s) && (t == RotateCw(s) || t == RotateCcw(s))
    requires !Collides(b, t, px, py) && py >= 0
    ensures WellShaped(t) && MaxCell(t) == MaxCell(s) && Inside(t, px, py)
  {
    TurnsKeepWellShaped(s);
    CwKeepsColour(s);
    CcwKeepsColour(s);
    FreeIsInside(b, t, px, py);
  }

  /** Inside the board, colliding means overlapping an occupied cell. */
  lemma {:induction false} InsideCollides(b: Rows, s: Matrix, px: int, py: int)
    requires IsGrid(b) && Inside(s, px, py)
    ensures Collides(b, s, px, py) <==>
      exists i, j :: 0 <= i < |s| && 0 <= j < |s[i]| && s[i][j] != 0 && b[py + i][px + j] != 0
  {
  }

  /** The spawn column `WIDTH // 2 - len(shape[0]) // 2` (piece.py:9, game.py:202). */
  function SpawnX(s: Matrix): (x: int)
    requires Rectangular(s)
  {
    WIDTH / 2 - |s[0]| / 2
  }

  /** Any tetromino, turned or not, lies inside the board at its spawn position. */
  lemma {:induction false} SpawnInside(s: Matrix)
    requires WellShaped(s)
    ensures Inside(s, SpawnX(s), 0)
  {
    var x := SpawnX(s);
    assert 3 <= x <= 5;
    assert x + |s[0]| <= WIDTH;
  }

  /** While a shape does not collide one row lower, it is above the bottom row. */
  lemma {:induction false} FreeBelowIsAbove(b: Rows, s: Matrix, px: int, py: int)
    requires IsGrid(b) && Cells(s) != {} && !Collides(b, s, px, py + 1)
    ensures py + 1 < HEIGHT
  {
    var p :| p in Cells(s);
    assert !CellBlocked(b, px + p.1, py + 1 + p.0);
  }

  /** The row where a shape dropped straight down from row `py` comes to rest: the
      first row from which one more step down collides. */
  function Landing(b: Rows, s: Matrix, px: int, py: int): (y: int)
    requires IsGrid(b) && Cells(s) != {}
    ensures y >= py
    decreases HEIGHT - py
  {
    if Collides(b, s, px, py + 1) then py
    else
      FreeBelowIsAbove(b, s, px, py);
      Landing(b, s, px, py + 1)
  }

  /** At the landing row one more step down collides, and every row passed on the way
      was free. */
  lemma {:induction false} LandingRests(b: Rows, s: Matrix, px: int, py: int)
    requires IsGrid(b) && Cells(s) != {}
    ensures Collides(b, s, px, Landing(b, s, px, py) + 1)
    ensures forall k :: py < k <= Landing(b, s, px, py) ==> !Collides(b, s, px, k)
    decreases HEIGHT - py
  {
    if !Collides(b, s, px, py + 1) {
      FreeBelowIsAbove(b, s, px, py);
      LandingRests(b, s, px, py + 1);
    }
  }

  /** On the empty board the O piece spawned at column 4 comes to rest at row 18. */
  lemma {:induction false} OLandsOnFloor(k: int)
    requires 0 <= k <= 18
    ensures Cells(SHAPES[1].1) != {} && Landing(INITIAL_GRID, SHAPES[1].1, 4, k) == 18
    decreases 18 - k
  {
    var o := SHAPES[1].1;
    InitialGridEmpty();
    ShapeCells(1);
    if k < 18 {
      assert !Collides(INITIAL_GRID, o, 4, k + 1);
      OLandsOnFloor(k + 1);
    } else {
      assert o[1][0] != 0 && CellBlocked(INITIAL_GRID, 4 + 0, 19 + 1);
    }
  }

  /** The O piece at (4, 18) covers exactly rows 18-19, columns 4-5. */
  lemma OCovers(row: int, col: int)
    ensures Covers(SHAPES[1].1, 4, 18, row, col) == (18 <= row <= 19 && 4 <= col <= 5)
  {
  }

  /** Locking the O piece at (4, 18) on the empty board fills rows 18-19, columns 4-5
      with its colour 2 and leaves every other cell empty. */
  lemma {:induction false} OStamp()
    ensures forall row, col :: 0 <= row < HEIGHT && 0 <= col < WIDTH ==>
      Stamp(INITIAL_GRID, SHAPES[1].1, 4, 18, 2)[row][col] ==
        if 18 <= row <= 19 && 4 <= col <= 5 then 2 else 0
  {
    var b := INITIAL_GRID;
    InitialGridEmpty();
    var r := Stamp(b, SHAPES[1].1, 4, 18, 2);
    forall row, col | 0 <= row < HEIGHT && 0 <= col < WIDTH
      ensures r[row][col] == if 18 <= row <= 19 && 4 <= col <= 5 then 2 else 0
    {
      OCovers(row, col);
      assert b[row][col] == 0;
    }
  }

  /** The O piece spawns at column 4 with colour 2. */
  lemma {:induction false} OSpawn()
    ensures SpawnX(SHAPES[1].1) == 4 && MaxCell(SHAPES[1].1) == 2
  {
    ShapeColour(1);
  }

  /** The scan shared by `is_valid` (piece.py:57-66, src/piece.py:28-37) and the
      rotations of piece.py (piece.py:80-91, piece.py:105-116): visit the cells of `s`
      row by row and stop at the first non-zero cell that leaves the columns, reaches
      row HEIGHT or lands on an occupied cell; the answer is whether one was found. */
  method Scan(grid: array2<int>, s: Matrix, px: int, py: int) returns (blocked: bool)
    requires IsBoard(grid)
    ensures blocked == Collides(Snapshot(grid), s, px, py)
  {
    ghost var b := Snapshot(grid);
    var i := 0;
    while i < |s|
      invariant 0 <= i <= |s|
      invariant forall a, c :: 0 <= a < i && 0 <= c < |s[a]| && s[a][c] != 0 ==>
        !CellBlocked(b, px + c, py + a)
    {
      var j := 0;
      while j < |s[i]|
        invariant 0 <= j <= |s[i]|
        invariant forall a, c :: 0 <= a < i && 0 <= c < |s[a]| && s[a][c] != 0 ==>
          !CellBlocked(b, px + c, py + a)
        invariant forall c :: 0 <= c < j && s[i][c] != 0 ==> !CellBlocked(b, px + c, py + i)
      {
        if s[i][j] != 0 {
          var newX := px + j;
          var newY := py + i;
          if newX < 0 || newX >= WIDTH || newY >= HEIGHT {
            assert CellBlocked(b, px + j, py + i);
            return true;
          }
          if newY >= 0 && grid[newY, newX] != 0 {
            assert CellBlocked(b, px + j, py + i);
            return true;
          }
        }
        j := j + 1;
      }
      i := i + 1;
    }
    return false;
  }

  /** The loop of `stop` (piece.py:40-43, src/piece.py:19-22): write `colour` into the board cell under
      every non-zero cell of `s` placed at (px, py), row by row. */
  method Paint(grid: array2<int>, s: Matrix, px: int, py: int, colour: int)
    requires IsBoard(grid) && Inside(s, px, py)
    modifies grid
    ensures Snapshot(grid) == Stamp(old(Snapshot(grid)), s, px, py, colour)
  {
    ghost var b := Snapshot(grid);
    var i := 0;
    while i < |s|
      invariant 0 <= i <= |s|
      invariant forall r, c :: 0 <= r < HEIGHT && 0 <= c < WIDTH ==>
        grid[r, c] == if Covers(s, px, py, r, c) && r - py < i then colour else b[r][c]
    {
      var j := 0;
      while j < |s[i]|
        invariant 0 <= j <= |s[i]|
        invariant forall r, c :: 0 <= r < HEIGHT && 0 <= c < WIDTH ==>
          grid[r, c] ==
            if Covers(s, px, py, r, c) && (r - py < i || (r - py == i && c - px < j)) then colour
            else b[r][c]
      {
        if s[i][j] != 0 {
          grid[py + i, px + j] := colour;
        }
        j := j + 1;
      }
      i := i + 1;
    }
    EqualMatrices(Snapshot(grid), Stamp(b, s, px, py, colour));
  }

  /** The loop `while not self.is_valid(0, 1): self.y += 1` (piece.py:128-129,
      src/piece.py:55-56, game.py:296-297) for a shape at column `px` starting from row
      `py`: step down one row while the next row is free. The row is counted in a local
      and the caller stores it; nothing reads it in between. */
  method Drop(grid: array2<int>, s: Matrix, px: int, py: int) returns (row: int)
    requires IsBoard(grid) && Cells(s) != {} && Inside(s, px, py) && py >= 0
    ensures py <= row == Landing(Snapshot(grid), s, px, py)
    ensures Inside(s, px, row)
  {
    ghost var b := Snapshot(grid);
    row := py;
    var blocked := Scan(grid, s, px, row + 1);
    while !blocked
      invariant py <= row && Inside(s, px, row)
      invariant Landing(b, s, px, row) == Landing(b, s, px, py)
      invariant blocked == Collides(b, s, px, row + 1)
      decreases HEIGHT - row
    {
      FreeBelowIsAbove(b, s, px, row);
      FreeIsInside(b, s, px, row + 1);
      row := row + 1;
      blocked := Scan(grid, s, px, row + 1);
    }
  }
}
