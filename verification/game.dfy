/** game.py: the game state around the falling piece (game.py:10-31) and its step
    logic: spawning with the game-over test, the once-per-spawn hold slot, clearing
    full rows with scoring, the lock-clear-spawn step of `update`, the landing row
    shown by the ghost piece, and the end-of-game high-score update. */
module Games {
  import opened Geometry
  import opened Settings
  import opened Board
  import opened Pieces
  import HighScores

  // ---------------------------------------------------------------------------
  // Clearing rows, as functions of the board.

  /** A row with no empty cell (`0 not in row`). */
  predicate IsFull(row: seq<int>) {
    0 !in row
  }

  /** The rows that are not full, in their order (`new_grid` before the padding). */
  function Kept(b: Rows): (k: Rows)
    ensures |k| <= |b|
  {
    if |b| == 0 then []
    else Kept(b[..|b| - 1]) + (if IsFull(b[|b| - 1]) then [] else [b[|b| - 1]])
  }

  /** The number of full rows (`lines_cleared_now`). */
  function FullCount(b: Rows): (n: nat)
    ensures n <= |b|
  {
    if |b| == 0 then 0 else FullCount(b[..|b| - 1]) + (if IsFull(b[|b| - 1]) then 1 else 0)
  }

  /** `n` rows of WIDTH empty cells. */
  function EmptyRows(n: nat): (e: Rows)
    ensures |e| == n && forall r :: 0 <= r < n ==> e[r] == seq(WIDTH, _ => 0)
  {
    seq(n, _ => seq(WIDTH, _ => 0))
  }

  /** The padding rows are empty, so none of them is full and clearing keeps them all. */
  lemma {:induction false} EmptyRowsNotFull(n: nat)
    ensures FullCount(EmptyRows(n)) == 0 && Kept(EmptyRows(n)) == EmptyRows(n)
  {
    if n > 0 {
      var e := EmptyRows(n);
      EmptyRowsNotFull(n - 1);
      assert e[..n - 1] == EmptyRows(n - 1);
      assert e[n - 1][0] == 0;
    }
  }

  /** The board after `clear_lines` (game.py:216-226): one empty row on top for every
      full row removed, then the remaining rows. */
  function Cleared(b: Rows): (after: Rows) {
    EmptyRows(FullCount(b)) + Kept(b)
  }

  /** The points for clearing `n` rows at once: `{1: 40, 2: 100, 3: 300, 4: 1200}`,
      and 0 for any other count (`scoring.get(n, 0)`). */
  function LineScore(n: int): (points: nat)
    ensures (points > 0) == (1 <= n <= 4)
  {
    if n == 1 then 40 else if n == 2 then 100 else if n == 3 then 300 else if n == 4 then 1200
    else 0
  }

  /** Exactly the full rows are removed: the kept rows are the rows of the board that
      are not full, and together with the full ones they account for every row. */
  lemma {:induction false} KeptRows(b: Rows)
    ensures |Kept(b)| + FullCount(b) == |b|
    ensures forall row :: row in Kept(b) <==> row in b && !IsFull(row)
    decreases |b|
  {
    if |b| > 0 {
      KeptRows(b[..|b| - 1]);
      assert b == b[..|b| - 1] + [b[|b| - 1]];
    }
  }

  /** The kept rows keep their relative order: keeping distributes over joining two
      parts of a board. */
  lemma {:induction false} KeptAppend(a: Rows, c: Rows)
    ensures Kept(a + c) == Kept(a) + Kept(c)
    decreases |c|
  {
    if |c| == 0 {
      assert a + c == a;
    } else {
      KeptAppend(a, c[..|c| - 1]);
      assert (a + c)[..|a + c| - 1] == a + c[..|c| - 1];
    }
  }

  /** A board has no full row exactly when there is nothing to count, and then
      nothing is removed. */
  lemma {:induction false} NoFullRows(b: Rows)
    ensures FullCount(b) == 0 <==> forall r :: 0 <= r < |b| ==> !IsFull(b[r])
    ensures FullCount(b) == 0 ==> Kept(b) == b
    decreases |b|
  {
    if |b| > 0 {
      var init, last := b[..|b| - 1], b[|b| - 1];
      NoFullRows(init);
      assert b == init + [last];
      if FullCount(b) == 0 {
        assert Kept(b) == Kept(init) + [last];
        forall r | 0 <= r < |b| ensures !IsFull(b[r]) {
          if r < |init| { assert b[r] == init[r]; }
        }
      } else if IsFull(last) {
        assert IsFull(b[|b| - 1]);
      } else {
        var r :| 0 <= r < |init| && IsFull(init[r]);
        assert b[r] == init[r];
      }
    }
  }

  /** Clearing keeps the board HEIGHT rows of WIDTH cells, and its top FullCount rows
      are empty. */
  lemma {:induction false} ClearedIsGrid(b: Rows)
    requires IsGrid(b)
    ensures IsGrid(Cleared(b))
    ensures forall r, c :: 0 <= r < FullCount(b) && 0 <= c < WIDTH ==> Cleared(b)[r][c] == 0
  {
    KeptRows(b);
    var n := FullCount(b);
    var k := Kept(b);
    forall r | 0 <= r < |k| ensures |k[r]| == WIDTH {
      assert k[r] in k;
      var i :| 0 <= i < |b| && b[i] == k[r];
    }
  }

  /** A cleared board has no full row. */
  lemma {:induction false} ClearedHasNoFullRow(b: Rows)
    requires IsGrid(b)
    ensures FullCount(Cleared(b)) == 0
  {
    KeptRows(b);
    var c := Cleared(b);
    var n := FullCount(b);
    forall r | 0 <= r < |c| ensures !IsFull(c[r]) {
      if r < n {
        assert c[r][0] == 0;
      } else {
        assert c[r] == Kept(b)[r - n];
        assert c[r] in Kept(b);
      }
    }
    NoFullRows(c);
  }

  /** `clear_lines` on a board with no full row changes nothing. */
  lemma {:induction false} NothingToClear(b: Rows)
    requires FullCount(b) == 0
    ensures Cleared(b) == b
  {
    NoFullRows(b);
    assert EmptyRows(0) == [];
  }

  /** Clearing twice in a row is clearing once. */
  lemma {:induction false} ClearIdempotent(b: Rows)
    requires IsGrid(b)
    ensures Cleared(Cleared(b)) == Cleared(b)
  {
    ClearedHasNoFullRow(b);
    NothingToClear(Cleared(b));
  }

  /** Clearing keeps every cell empty or a colour id. */
  lemma {:induction false} ClearedInRange(b: Rows)
    requires IsGrid(b) && InRange(b)
    ensures IsGrid(Cleared(b)) && InRange(Cleared(b))
  {
    ClearedIsGrid(b);
    KeptRows(b);
    var c := Cleared(b);
    var n := FullCount(b);
    forall r, col | 0 <= r < HEIGHT && 0 <= col < WIDTH ensures 0 <= c[r][col] <= 7 {
      if r >= n {
        assert c[r] == Kept(b)[r - n];
        assert c[r] in Kept(b);
        var i :| 0 <= i < |b| && b[i] == c[r];
      }
    }
  }

  // ---------------------------------------------------------------------------
  // The loops of `clear_lines` and `new_piece`.

  /** The board loops of `clear_lines` (game.py:218-226): collect the rows that are
      not full and count the others, put that many empty rows on top, and copy the
      result back into the board row by row. Answers the count. */
  method ClearRows(grid: array2<int>) returns (n: nat)
    requires IsBoard(grid)
    modifies grid
    ensures n == FullCount(old(Snapshot(grid)))
    ensures Snapshot(grid) == Cleared(old(Snapshot(grid)))
  {
    ghost var b := Snapshot(grid);
    var newGrid;
    n, newGrid := SplitRows(grid);
    var k := 0;
    while k < n
      invariant 0 <= k <= n
      invariant newGrid == EmptyRows(k) + Kept(b)
    {
      newGrid := [seq(WIDTH, _ => 0)] + newGrid;
      k := k + 1;
    }
    SnapshotIsGrid(grid);
    ClearedIsGrid(b);
    CopyRows(grid, newGrid);
  }

  /** The first loop of `clear_lines` (game.py:218-223): count the full rows and
      collect the others in order. */
  method SplitRows(grid: array2<int>) returns (n: nat, kept: Rows)
    requires IsBoard(grid)
    ensures n == old(FullCount(Snapshot(grid))) && kept == old(Kept(Snapshot(grid)))
  {
    ghost var b := Snapshot(grid);
    n, kept := 0, [];
    var r := 0;
    while r < HEIGHT
      invariant 0 <= r <= HEIGHT
      invariant n == FullCount(b[..r]) && kept == Kept(b[..r])
    {
      assert b[..r + 1][..r] == b[..r];
      var row := ReadRow(grid, r);
      if 0 !in row {
        n := n + 1;
      } else {
        kept := kept + [row];
      }
      r := r + 1;
    }
    assert b[..HEIGHT] == b;
  }

  /** The last loop of `clear_lines` (game.py:225-226): `grid[i] = new_grid[i]` for
      every row. */
  method CopyRows(grid: array2<int>, rows: Rows)
    requires IsBoard(grid) && IsGrid(rows)
    modifies grid
    ensures Snapshot(grid) == rows
  {
    var i := 0;
    while i < HEIGHT
      invariant 0 <= i <= HEIGHT
      invariant forall r, c :: 0 <= r < i && 0 <= c < WIDTH ==> grid[r, c] == rows[r][c]
    {
      var c := 0;
      while c < WIDTH
        invariant 0 <= c <= WIDTH
        invariant forall r, c' :: 0 <= r < i && 0 <= c' < WIDTH ==> grid[r, c'] == rows[r][c']
        invariant forall c' :: 0 <= c' < c ==> grid[i, c'] == rows[i][c']
      {
        grid[i, c] := rows[i][c];
        c := c + 1;
      }
      i := i + 1;
    }
    EqualMatrices(Snapshot(grid), rows);
  }

  /** Row `r` of the board as a list (`for row in grid`). */
  method ReadRow(grid: array2<int>, r: int) returns (row: seq<int>)
    requires IsBoard(grid) && 0 <= r < HEIGHT
    ensures row == old(Snapshot(grid))[r]
  {
    row := [];
    var c := 0;
    while c < WIDTH
      invariant 0 <= c <= WIDTH && |row| == c
      invariant forall c' :: 0 <= c' < c ==> row[c'] == grid[r, c']
    {
      row := row + [grid[r, c]];
      c := c + 1;
    }
  }

  /** The loop of `new_piece` (game.py:176-183): scan the new piece's cells, row by
      row, until one lies on an occupied cell. */
  method Overlaps(grid: array2<int>, s: Matrix, px: int, py: int) returns (hit: bool)
    requires IsBoard(grid) && Inside(s, px, py)
    ensures hit == old(Collides(Snapshot(grid), s, px, py))
  {
    SnapshotIsGrid(grid);
    ghost var b := Snapshot(grid);
    InsideCollides(b, s, px, py);
    var i := 0;
    while i < |s|
      invariant 0 <= i <= |s|
      invariant forall a, c :: 0 <= a < i && 0 <= c < |s[a]| && s[a][c] != 0 ==> b[py + a][px + c] == 0
    {
      var j := 0;
      while j < |s[i]|
        invariant 0 <= j <= |s[i]|
        invariant forall a, c :: 0 <= a < i && 0 <= c < |s[a]| && s[a][c] != 0 ==> b[py + a][px + c] == 0
        invariant forall c :: 0 <= c < j && s[i][c] != 0 ==> b[py + i][px + c] == 0
      {
        if s[i][j] != 0 && grid[py + i, px + j] != 0 {
          return true;
        }
        j := j + 1;
      }
      i := i + 1;
    }
    return false;
  }

  // ---------------------------------------------------------------------------
  // The game.

  class Game {
    /** The shared board (the global `grid`). */
    const grid: array2<int>
    var currentPiece: Piece
    var holdPiece: Piece?
    var holdUsed: bool
    var score: int
    var level: int
    var gameOver: bool
    var linesCleared: int
    var highScores: seq<HighScores.Entry>
    var newHigh: bool
    var highScoresUpdated: bool

    /** Both pieces are valid pieces of this board and are different objects; the level
        stays 1 (nothing raises it); score and cleared-row count are never negative. */
    ghost predicate Valid()
      reads this`currentPiece, this`holdPiece, this`level, this`score, this`linesCleared
      reads currentPiece, holdPiece
    {
      ValidHold() && currentPiece.Valid() && currentPiece.grid == grid && holdPiece != currentPiece
    }

    /** Everything `Valid` asks except of the current piece (which `new_piece` is about
        to replace). */
    ghost predicate ValidHold()
      reads this`holdPiece, this`level, this`score, this`linesCleared, holdPiece
    {
      IsBoard(grid) && (holdPiece != null ==> holdPiece.Valid() && holdPiece.grid == grid) &&
      level == 1 && score >= 0 && linesCleared >= 0
    }

    /** `Game()` (game.py:11-31), with the first piece spawned from table index `k`. */
    constructor (grid: array2<int>, k: nat)
      requires IsBoard(grid) && k < 7
      ensures Valid() && this.grid == grid && fresh(currentPiece)
      ensures currentPiece.shapeLabel == SHAPES[k].0 && currentPiece.shape == SHAPES[k].1
      ensures currentPiece.color == k + 1 && !currentPiece.locked
      ensures currentPiece.x == SpawnX(SHAPES[k].1) && currentPiece.y == 0
      ensures holdPiece == null && !holdUsed && score == 0 && level == 1 && !gameOver
      ensures linesCleared == 0 && highScores == [] && !newHigh && !highScoresUpdated
    {
      this.grid := grid;
      currentPiece := new Piece(grid, k);
      holdPiece := null;
      holdUsed := false;
      score := 0;
      level := 1;
      gameOver := false;
      linesCleared := 0;
      highScores := [];
      newHigh := false;
      highScoresUpdated := false;
    }

    /** `new_piece` (game.py:164-183): spawn a new piece from table index `k`, free the
        hold slot, and end the game when the new piece overlaps an occupied cell. The
        board is not changed. */
    method NewPiece(k: nat)
      requires ValidHold() && k < 7
      modifies this`currentPiece, this`holdUsed, this`gameOver
      ensures Valid() && fresh(currentPiece) && !holdUsed
      ensures currentPiece.shapeLabel == SHAPES[k].0 && currentPiece.shape == SHAPES[k].1
      ensures currentPiece.color == k + 1 && !currentPiece.locked
      ensures currentPiece.x == SpawnX(SHAPES[k].1) && currentPiece.y == 0
      ensures gameOver == (old(gameOver) || Collides(old(Snapshot(grid)), currentPiece.shape, currentPiece.x, currentPiece.y))
      ensures unchanged(grid)
    {
      var p := new Piece(grid, k);
      currentPiece := p;
      holdUsed := false;
      var overlap := Overlaps(grid, p.shape, p.x, p.y);
      if overlap {
        gameOver := true;
      }
    }

    /** `hold_current_piece` (game.py:185-204): once per spawn, put the current piece
        in the hold slot; the first time a new piece (table index `k`) is spawned,
        later the held piece comes back at the spawn position. */
    method Hold(k: nat)
      requires Valid() && k < 7
      modifies this`currentPiece, this`holdPiece, this`holdUsed, this`gameOver, holdPiece
      ensures Valid() && holdUsed && unchanged(grid)
      ensures old(holdUsed) ==>
        currentPiece == old(currentPiece) && holdPiece == old(holdPiece) &&
        gameOver == old(gameOver) && (holdPiece != null ==> unchanged(holdPiece))
      ensures !old(holdUsed) && old(holdPiece) == null ==>
        holdPiece == old(currentPiece) && unchanged(holdPiece) && fresh(currentPiece) &&
        currentPiece.shapeLabel == SHAPES[k].0 && currentPiece.shape == SHAPES[k].1 &&
        currentPiece.color == k + 1 && !currentPiece.locked &&
        currentPiece.x == SpawnX(SHAPES[k].1) && currentPiece.y == 0 &&
        gameOver == (old(gameOver) || Collides(Snapshot(grid), SHAPES[k].1, SpawnX(SHAPES[k].1), 0))
      ensures !old(holdUsed) && old(holdPiece) != null ==>
        currentPiece == old(holdPiece) && holdPiece == old(currentPiece) && unchanged(holdPiece) &&
        currentPiece.shapeLabel == old(holdPiece.shapeLabel) && currentPiece.shape == old(holdPiece.shape) &&
        currentPiece.color == old(holdPiece.color) && currentPiece.locked == old(holdPiece.locked) &&
        currentPiece.x == SpawnX(currentPiece.shape) && currentPiece.y == 0 &&
        gameOver == old(gameOver)
    {
      if holdUsed {
        return;
      }
      if holdPiece == null {
        holdPiece := currentPiece;
        NewPiece(k);
      } else {
        currentPiece, holdPiece := holdPiece, currentPiece;
        currentPiece.Respawn();
      }
      holdUsed := true;
    }

    /** `clear_lines` (game.py:206-230): remove the full rows, and when there were any,
        add the points for that many rows times the level and count them. */
    method ClearLines()
      requires Valid()
      modifies this`score, this`linesCleared, grid
      ensures Valid()
      ensures Snapshot(grid) == Cleared(old(Snapshot(grid)))
      ensures score == old(score) + LineScore(FullCount(old(Snapshot(grid)))) * level
      ensures linesCleared == old(linesCleared) + FullCount(old(Snapshot(grid)))
    {
      var n := ClearRows(grid);
      if n > 0 {
        score := score + LineScore(n) * level;
        linesCleared := linesCleared + n;
      }
    }

    /** The row where the ghost piece of `draw_ghost_piece` is drawn (game.py:295-297):
        a copy of the current piece falls until blocked. Neither the current piece nor
        the board changes. */
    method GhostLanding() returns (gy: int)
      requires Valid()
      ensures currentPiece.y <= gy == Landing(Snapshot(grid), currentPiece.shape, currentPiece.x, currentPiece.y)
    {
      var shadow := new Piece.Copy(currentPiece);
      shadow.Fall();
      gy := shadow.y;
    }

    /** The game-over half of `update` (game.py:399-403): the high scores are
        evaluated once, with the stored file's text `file` and the initials the player
        types, `initials`; the answer is the text written back, if any. */
    method FinishGame(file: HighScores.Option<string>, initials: string)
      returns (written: HighScores.Option<string>)
      requires gameOver
      modifies this`highScores, this`newHigh, this`highScoresUpdated
      ensures highScoresUpdated
      ensures old(highScoresUpdated) ==>
        highScores == old(highScores) && newHigh == old(newHigh) && written.None?
      ensures !old(highScoresUpdated) ==>
        (highScores, newHigh, written) == HighScores.Updated(file, score, initials)
    {
      written := HighScores.None;
      if !highScoresUpdated {
        var scores, isNewHigh, text := HighScores.UpdateHighScores(file, score, initials);
        highScores, newHigh, written := scores, isNewHigh, text;
        highScoresUpdated := true;
      }
    }

    /** The step half of `update` for a running game (game.py:404-406): once the
        current piece has locked, clear the full rows and spawn the next piece (table
        index `k`). */
    method Advance(k: nat)
      requires Valid() && !gameOver && k < 7
      modifies this`currentPiece, this`holdUsed, this`gameOver, this`score, this`linesCleared, grid
      ensures Valid()
      ensures !old(currentPiece.locked) ==> currentPiece == old(currentPiece) && unchanged(this) && unchanged(grid)
      ensures old(currentPiece.locked) ==>
        Snapshot(grid) == Cleared(old(Snapshot(grid))) &&
        score == old(score) + LineScore(FullCount(old(Snapshot(grid)))) * level &&
        linesCleared == old(linesCleared) + FullCount(old(Snapshot(grid))) &&
        fresh(currentPiece) && currentPiece.shapeLabel == SHAPES[k].0 && currentPiece.shape == SHAPES[k].1 &&
        currentPiece.color == k + 1 && !currentPiece.locked &&
        currentPiece.x == SpawnX(SHAPES[k].1) && currentPiece.y == 0 && !holdUsed &&
        (gameOver <==> Collides(Snapshot(grid), SHAPES[k].1, SpawnX(SHAPES[k].1), 0))
    {
      if currentPiece.locked {
        ClearLines();
        NewPiece(k);
      }
    }

    /** The logic of `update` (game.py:384-406), drawing left out. */
    method Update(k: nat, file: HighScores.Option<string>, initials: string)
      returns (written: HighScores.Option<string>)
      requires Valid() && k < 7
      modifies this`currentPiece, this`holdUsed, this`gameOver, this`score, this`linesCleared
      modifies this`highScores, this`newHigh, this`highScoresUpdated, grid
      ensures Valid() && holdPiece == old(holdPiece) && level == old(level)
      ensures old(gameOver) ==>
        gameOver && highScoresUpdated && unchanged(grid) && currentPiece == old(currentPiece) &&
        holdPiece == old(holdPiece) && holdUsed == old(holdUsed) &&
        score == old(score) && linesCleared == old(linesCleared)
      ensures old(gameOver) && old(highScoresUpdated) ==>
        highScores == old(highScores) && newHigh == old(newHigh) && written.None?
      ensures old(gameOver) && !old(highScoresUpdated) ==>
        (highScores, newHigh, written) == HighScores.Updated(file, score, initials)
      ensures !old(gameOver) ==>
        written.None? && highScores == old(highScores) && newHigh == old(newHigh) &&
        highScoresUpdated == old(highScoresUpdated)
      ensures !old(gameOver) && old(currentPiece.locked) ==>
        Snapshot(grid) == Cleared(old(Snapshot(grid))) &&
        score == old(score) + LineScore(FullCount(old(Snapshot(grid)))) * level &&
        linesCleared == old(linesCleared) + FullCount(old(Snapshot(grid))) &&
        fresh(currentPiece) && currentPiece.shapeLabel == SHAPES[k].0 &&
        currentPiece.shape == SHAPES[k].1 && currentPiece.color == k + 1 && !currentPiece.locked &&
        currentPiece.x == SpawnX(SHAPES[k].1) && currentPiece.y == 0 && !holdUsed &&
        (gameOver <==> Collides(Snapshot(grid), SHAPES[k].1, SpawnX(SHAPES[k].1), 0))
      ensures !old(gameOver) && !old(currentPiece.locked) ==> unchanged(this) && unchanged(grid)
    {
      written := HighScores.None;
      if gameOver {
        written := FinishGame(file, initials);
      } else {
        Advance(k);
      }
    }
  }

  /** The ghost copy lands on the row where `instant_drop` puts the piece: both are
      `Landing` of the same board, shape, column and start row, and on an empty board
      an O piece spawned at the top lands on row 18. */
  lemma GhostMatchesDrop()
    ensures Cells(SHAPES[1].1) != {} && Landing(INITIAL_GRID, SHAPES[1].1, SpawnX(SHAPES[1].1), 0) == 18
  {
    OSpawn();
    OLandsOnFloor(0);
  }
}
