/** The constants of the earlier iteration, src/settings.py: the same board size and
    colours, and the seven shapes without their labels. */
module SrcSettings {
  import opened Geometry
  import Settings

  const WIDTH := 10
  const HEIGHT := 20

  const INITIAL_GRID: seq<seq<int>> := seq(HEIGHT, _ => seq(WIDTH, _ => 0))

  const SHAPES: seq<Matrix> := [
    [[1, 1, 1, 1]],
    [[2, 2], [2, 2]],
    [[0, 3, 0], [3, 3, 3]],
    [[0, 4, 4], [4, 4, 0]],
    [[5, 5, 0], [0, 5, 5]],
    [[6, 0, 0], [6, 6, 6]],
    [[0, 0, 7], [7, 7, 7]]
  ]

  const COLORS: seq<(int, int, int)> := [
    (0, 0, 0),
    (0, 255, 255),
    (255, 255, 0),
    (128, 0, 128),
    (0, 255, 0),
    (255, 0, 0),
    (0, 0, 255),
    (255, 165, 0)
  ]

  /** The starting board has HEIGHT rows of WIDTH empty cells. */
  lemma InitialGridEmpty()
    ensures |INITIAL_GRID| == HEIGHT
    ensures forall r :: 0 <= r < HEIGHT ==> |INITIAL_GRID[r]| == WIDTH
    ensures forall r, c :: 0 <= r < HEIGHT && 0 <= c < WIDTH ==> INITIAL_GRID[r][c] == 0
  {
  }

  /** The unlabelled table holds the matrices of the labelled one, in the same order,
      and the two iterations agree on the board size and the colours. */
  lemma SameAsLabelled()
    ensures |SHAPES| == |Settings.SHAPES|
    ensures forall k :: 0 <= k < |SHAPES| ==> SHAPES[k] == Settings.SHAPES[k].1
    ensures WIDTH == Settings.WIDTH && HEIGHT == Settings.HEIGHT && COLORS == Settings.COLORS
  {
  }

  /** Seven shapes, each rectangular with four non-zero cells, the one at index k using
      only the value k + 1; and COLORS has an entry for every id 0..7. */
  lemma {:induction false} Tetrominoes()
    ensures |SHAPES| == 7
    ensures forall k :: 0 <= k < 7 ==> WellShaped(SHAPES[k]) && |Cells(SHAPES[k])| == 4
    ensures forall k, i, j :: 0 <= k < 7 && 0 <= i < |SHAPES[k]| && 0 <= j < |SHAPES[k][i]| ==>
      SHAPES[k][i][j] == 0 || SHAPES[k][i][j] == k + 1
    ensures |COLORS| == 8
  {
    SameAsLabelled();
    Settings.SevenTetrominoes();
    Settings.ShapeValues();
  }
}
