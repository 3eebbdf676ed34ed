/** The constants of settings.py: board size, the empty starting board, the seven
    labelled tetrominoes, the colour table and the keys of the texture table. */
module Settings {
  import opened Geometry
  import opened Decimal

  const WIDTH := 10
  const HEIGHT := 20

  /** `grid` as settings.py creates it: HEIGHT rows of WIDTH zeros. */
  const INITIAL_GRID: seq<seq<int>> := seq(HEIGHT, _ => seq(WIDTH, _ => 0))

  const SHAPES: seq<(string, Matrix)> := [
    ("I", [[1, 1, 1, 1]]),
    ("O", [[2, 2], [2, 2]]),
    ("T", [[0, 3, 0], [3, 3, 3]]),
    ("S", [[0, 4, 4], [4, 4, 0]]),
    ("Z", [[5, 5, 0], [0, 5, 5]]),
    ("J", [[6, 0, 0], [6, 6, 6]]),
    ("L", [[0, 0, 7], [7, 7, 7]])
  ]

  /** RGB triples, indexed by colour id (0 is the empty cell). */
  const COLORS: seq<(int, int, int)> := [
    (0, 0, 0),
    (0, 255, 255),
    (255, 255, 0),
    (128, 0, 128),
    (0, 255, 0),
    (255, 0, 0),
    (0, 0, 255),
    (255, 165, 0)
  ]

  /** The keys of `BLOCK_TEXTURES`; the textures themselves are images. */
  const TEXTURE_KEYS: set<string> := {"0", "1", "2", "3", "4", "5", "6", "7"}

  /** The starting board has HEIGHT rows of WIDTH empty cells. */
  lemma InitialGridEmpty()
    ensures |INITIAL_GRID| == HEIGHT
    ensures forall r :: 0 <= r < HEIGHT ==> |INITIAL_GRID[r]| == WIDTH
    ensures forall r, c :: 0 <= r < HEIGHT && 0 <= c < WIDTH ==> INITIAL_GRID[r][c] == 0
  {
  }

  /** The non-zero cells of each table entry, written out. */
  lemma ShapeCells(k: nat)
    requires k < 7
    ensures Cells(SHAPES[k].1) ==
      match k
      case 0 => {(0, 0), (0, 1), (0, 2), (0, 3)}
      case 1 => {(0, 0), (0, 1), (1, 0), (1, 1)}
      case 2 => {(0, 1), (1, 0), (1, 1), (1, 2)}
      case 3 => {(0, 1), (0, 2), (1, 0), (1, 1)}
      case 4 => {(0, 0), (0, 1), (1, 1), (1, 2)}
      case 5 => {(0, 0), (1, 0), (1, 1), (1, 2)}
      case _ => {(0, 2), (1, 0), (1, 1), (1, 2)}
  {
  }

  /** There are seven shapes, each a rectangular matrix of at most 4 by 4 with exactly
      four non-zero cells. */
  lemma {:induction false} SevenTetrominoes()
    ensures |SHAPES| == 7
    ensures forall k :: 0 <= k < 7 ==> WellShaped(SHAPES[k].1) && |Cells(SHAPES[k].1)| == 4
  {
    forall k | 0 <= k < 7 ensures WellShaped(SHAPES[k].1) && |Cells(SHAPES[k].1)| == 4 {
      Tetromino(k);
    }
  }

  /** The shape at index k is a tetromino. */
  lemma {:induction false} Tetromino(k: nat)
    requires k < 7
    ensures WellShaped(SHAPES[k].1) && |Cells(SHAPES[k].1)| == 4
  {
    var c := Cells(SHAPES[k].1);
    ShapeCells(k);
    if k == 0 { FourPositions(c, (0, 0), (0, 1), (0, 2), (0, 3)); }
    else if k == 1 { FourPositions(c, (0, 0), (0, 1), (1, 0), (1, 1)); }
    else if k == 2 { FourPositions(c, (0, 1), (1, 0), (1, 1), (1, 2)); }
    else if k == 3 { FourPositions(c, (0, 1), (0, 2), (1, 0), (1, 1)); }
    else if k == 4 { FourPositions(c, (0, 0), (0, 1), (1, 1), (1, 2)); }
    else if k == 5 { FourPositions(c, (0, 0), (1, 0), (1, 1), (1, 2)); }
    else { FourPositions(c, (0, 2), (1, 0), (1, 1), (1, 2)); }
  }

  /** A set of four distinct positions has four elements. */
  lemma FourPositions(c: set<(int, int)>, p: (int, int), q: (int, int), r: (int, int), t: (int, int))
    requires c == {p, q, r, t} && p != q && p != r && p != t && q != r && q != t && r != t
    ensures |c| == 4 && p in c
  {
  }

  /** Every non-zero cell of the shape at index k holds k + 1. */
  lemma ShapeValues()
    ensures forall k, i, j :: 0 <= k < 7 && 0 <= i < |SHAPES[k].1| && 0 <= j < |SHAPES[k].1[i]| ==>
      SHAPES[k].1[i][j] == 0 || SHAPES[k].1[i][j] == k + 1
  {
  }

  /** So the colour rule `max(max(row) for row in shape)` gives shape k the id k + 1:
      seven distinct ids from 1 to 7. */
  lemma {:induction false} ShapeColour(k: nat)
    requires k < 7
    ensures MaxCell(SHAPES[k].1) == k + 1
  {
    var s := SHAPES[k].1;
    ShapeCells(k);
    ShapeValues();
    var m := MaxCell(s);
    var p :| p in Cells(s);
    assert s[p.0][p.1] == k + 1;
    var i, j :| 0 <= i < |s| && 0 <= j < |s[i]| && s[i][j] == m;
  }

  /** Every colour id 0..7 has an entry in COLORS and a key `str(id)` in the texture
      table, so `COLORS[color]` and `BLOCK_TEXTURES[str(color)]` cannot fail. */
  lemma {:induction false} ColourLookups(c: nat)
    requires c <= 7
    ensures c < |COLORS|
    ensures Str(c) in TEXTURE_KEYS
  {
    assert Str(c) == [DigitChar(c)];
    if c == 0 { assert Str(c) == "0"; }
    else if c == 1 { assert Str(c) == "1"; }
    else if c == 2 { assert Str(c) == "2"; }
    else if c == 3 { assert Str(c) == "3"; }
    else if c == 4 { assert Str(c) == "4"; }
    else if c == 5 { assert Str(c) == "5"; }
    else if c == 6 { assert Str(c) == "6"; }
    else { assert Str(c) == "7"; }
  }
}
