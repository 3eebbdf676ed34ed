/** Shape matrices and the two rotations a piece applies to them (piece.py:79 and
    piece.py:104): a matrix is a list of rows, 0 is an empty cell and any other value
    is the piece's colour id. */
module Geometry {

  type Matrix = seq<seq<int>>

  /** Every row has the length of the first, and there is at least one cell: what the
      list comprehensions over `zip` and the spawn column `len(shape[0])` rely on. */
  predicate Rectangular(s: Matrix) {
    |s| > 0 && |s[0]| > 0 && forall i :: 0 <= i < |s| ==> |s[i]| == |s[0]|
  }

  /** The positions (row, column) of the non-zero cells. */
  function Cells(s: Matrix): set<(int, int)> {
    set i, j | 0 <= i < |s| && 0 <= j < |s[i]| && s[i][j] != 0 :: (i, j)
  }

  /** The shape of a tetromino: rectangular, at most 4 by 4, with some non-zero cell. */
  predicate WellShaped(s: Matrix) {
    Rectangular(s) && |s| <= 4 && |s[0]| <= 4 && Cells(s) != {}
  }

  /** `shape[::-1]`: the rows in reverse order. */
  function Reverse(s: Matrix): (r: Matrix)
    ensures |r| == |s| && forall i :: 0 <= i < |s| ==> r[i] == s[|s| - 1 - i]
  {
    seq(|s|, i requires 0 <= i < |s| => s[|s| - 1 - i])
  }

  /** `[list(row) for row in zip(*shape)]` on a rectangular matrix. */
  function Transpose(s: Matrix): (r: Matrix)
    requires Rectangular(s)
    ensures Rectangular(r) && |r| == |s[0]| && |r[0]| == |s|
    ensures forall i, j :: 0 <= i < |r| && 0 <= j < |s| ==> r[i][j] == s[j][i]
  {
    seq(|s[0]|, i requires 0 <= i < |s[0]| => seq(|s|, j requires 0 <= j < |s| => s[j][i]))
  }

  /** Clockwise turn, `zip(*shape[::-1])` (piece.py:79). */
  function RotateCw(s: Matrix): (r: Matrix)
    requires Rectangular(s)
    ensures Rectangular(r) && |r| == |s[0]| && |r[0]| == |s|
  {
    Transpose(Reverse(s))
  }

  /** Counter-clockwise turn, `zip(*shape)` read backwards (piece.py:104). */
  function RotateCcw(s: Matrix): (r: Matrix)
    requires Rectangular(s)
    ensures Rectangular(r) && |r| == |s[0]| && |r[0]| == |s|
  {
    Reverse(Transpose(s))
  }

  /** Where each cell of a clockwise turn comes from. */
  lemma CwAt(s: Matrix, i: int, j: int)
    requires Rectangular(s) && 0 <= i < |s[0]| && 0 <= j < |s|
    ensures RotateCw(s)[i][j] == s[|s| - 1 - j][i]
  {
  }

  /** Where each cell of a counter-clockwise turn comes from. */
  lemma CcwAt(s: Matrix, i: int, j: int)
    requires Rectangular(s) && 0 <= i < |s[0]| && 0 <= j < |s|
    ensures RotateCcw(s)[i][j] == s[j][|s[0]| - 1 - i]
  {
  }

  lemma {:induction false} EqualMatrices(a: Matrix, b: Matrix)
    requires |a| == |b| && forall i :: 0 <= i < |a| ==> |a[i]| == |b[i]|
    requires forall i, j :: 0 <= i < |a| && 0 <= j < |a[i]| ==> a[i][j] == b[i][j]
    ensures a == b
  {
    forall i | 0 <= i < |a| ensures a[i] == b[i] {
      assert forall j :: 0 <= j < |a[i]| ==> a[i][j] == b[i][j];
    }
  }

  /** A counter-clockwise turn undoes a clockwise one. */
  lemma {:induction false} CcwUndoesCw(s: Matrix)
    requires Rectangular(s)
    ensures RotateCcw(RotateCw(s)) == s
  {
    var c := RotateCw(s);
    var r := RotateCcw(c);
    forall i, j | 0 <= i < |r| && 0 <= j < |r[i]| ensures r[i][j] == s[i][j] {
      CcwAt(c, i, j);
      CwAt(s, j, |s| - 1 - i);
    }
    EqualMatrices(r, s);
  }

  /** A clockwise turn undoes a counter-clockwise one. */
  lemma {:induction false} CwUndoesCcw(s: Matrix)
    requires Rectangular(s)
    ensures RotateCw(RotateCcw(s)) == s
  {
    var c := RotateCcw(s);
    var r := RotateCw(c);
    forall i, j | 0 <= i < |r| && 0 <= j < |r[i]| ensures r[i][j] == s[i][j] {
      CwAt(c, i, j);
      CcwAt(s, |s[0]| - 1 - j, i);
    }
    EqualMatrices(r, s);
  }

  /** Two clockwise turns turn the matrix upside down. */
  lemma HalfTurnAt(s: Matrix, i: int, j: int)
    requires Rectangular(s) && 0 <= i < |s| && 0 <= j < |s[0]|
    ensures RotateCw(RotateCw(s))[i][j] == s[|s| - 1 - i][|s[0]| - 1 - j]
  {
    var c := RotateCw(s);
    CwAt(c, i, j);
    CwAt(s, |s[0]| - 1 - j, i);
  }

  /** Four clockwise turns give back the original matrix. */
  lemma {:induction false} FourTurns(s: Matrix)
    requires Rectangular(s)
    ensures RotateCw(RotateCw(RotateCw(RotateCw(s)))) == s
  {
    var h := RotateCw(RotateCw(s));
    var r := RotateCw(RotateCw(h));
    assert |h| == |s| && |h[0]| == |s[0]|;
    forall i, j | 0 <= i < |r| && 0 <= j < |r[i]| ensures r[i][j] == s[i][j] {
      HalfTurnAt(h, i, j);
      HalfTurnAt(s, |s| - 1 - i, |s[0]| - 1 - j);
    }
    EqualMatrices(r, s);
  }

  /** An injective map keeps the size of a finite set of positions. */
  lemma {:induction false} InjectiveImage(a: set<(int, int)>, f: ((int, int)) -> (int, int))
    requires forall p, q :: p in a && q in a && f(p) == f(q) ==> p == q
    ensures |set p | p in a :: f(p)| == |a|
    decreases |a|
  {
    if a != {} {
      var p :| p in a;
      var rest := a - {p};
      InjectiveImage(rest, f);
      assert (set q | q in a :: f(q)) == (set q | q in rest :: f(q)) + {f(p)};
      assert f(p) !in (set q | q in rest :: f(q));
    }
  }

  /** The non-zero cells of a clockwise turn are those of the original, turned. */
  lemma {:induction false} CellsCw(s: Matrix)
    requires Rectangular(s)
    ensures Cells(RotateCw(s)) == set p | p in Cells(s) :: (p.1, |s| - 1 - p.0)
  {
    var r := RotateCw(s);
    var image := set p | p in Cells(s) :: (p.1, |s| - 1 - p.0);
    forall q | q in Cells(r) ensures q in image {
      CwAt(s, q.0, q.1);
      assert (|s| - 1 - q.1, q.0) in Cells(s);
    }
    forall q | q in image ensures q in Cells(r) {
      var p :| p in Cells(s) && q == (p.1, |s| - 1 - p.0);
      CwAt(s, p.1, |s| - 1 - p.0);
    }
  }

  /** A clockwise turn keeps the number of non-zero cells. */
  lemma {:induction false} CwKeepsCellCount(s: Matrix)
    requires Rectangular(s)
    ensures |Cells(RotateCw(s))| == |Cells(s)|
  {
    CellsCw(s);
    var turn := (p: (int, int)) => (p.1, |s| - 1 - p.0);
    InjectiveImage(Cells(s), turn);
    assert (set p | p in Cells(s) :: turn(p)) == (set p | p in Cells(s) :: (p.1, |s| - 1 - p.0));
  }

  /** A counter-clockwise turn keeps the number of non-zero cells. */
  lemma {:induction false} CcwKeepsCellCount(s: Matrix)
    requires Rectangular(s)
    ensures |Cells(RotateCcw(s))| == |Cells(s)|
  {
    var c := RotateCcw(s);
    CwKeepsCellCount(c);
    CwUndoesCcw(s);
  }

  /** `max(row)`: the largest value of a non-empty row. */
  function MaxRow(row: seq<int>): (m: int)
    requires |row| > 0
    ensures (exists j :: 0 <= j < |row| && row[j] == m)
    ensures forall j :: 0 <= j < |row| ==> row[j] <= m
  {
    if |row| == 1 then row[0]
    else
      var m := MaxRow(row[..|row| - 1]);
      if row[|row| - 1] > m then row[|row| - 1] else m
  }

  /** `max(max(row) for row in shape)` (piece.py:8): the largest cell of the matrix. */
  function MaxCell(s: Matrix): (m: int)
    requires Rectangular(s)
    ensures exists i, j :: 0 <= i < |s| && 0 <= j < |s[i]| && s[i][j] == m
    ensures forall i, j :: 0 <= i < |s| && 0 <= j < |s[i]| ==> s[i][j] <= m
  {
    if |s| == 1 then MaxRow(s[0])
    else
      var m := MaxCell(s[..|s| - 1]);
      var last := MaxRow(s[|s| - 1]);
      if last > m then last else m
  }

  /** A clockwise turn keeps the colour (the largest cell). */
  lemma {:induction false} CwKeepsColour(s: Matrix)
    requires Rectangular(s)
    ensures MaxCell(RotateCw(s)) == MaxCell(s)
  {
    var r := RotateCw(s);
    var m, n := MaxCell(s), MaxCell(r);
    var i, j :| 0 <= i < |s| && 0 <= j < |s[i]| && s[i][j] == m;
    CwAt(s, j, |s| - 1 - i);
    assert m <= n by { assert r[j][|s| - 1 - i] <= n; }
    var a, b :| 0 <= a < |r| && 0 <= b < |r[a]| && r[a][b] == n;
    CwAt(s, a, b);
    assert n <= m by { assert s[|s| - 1 - b][a] <= m; }
  }

  /** A counter-clockwise turn keeps the colour (the largest cell). */
  lemma {:induction false} CcwKeepsColour(s: Matrix)
    requires Rectangular(s)
    ensures MaxCell(RotateCcw(s)) == MaxCell(s)
  {
    CwKeepsColour(RotateCcw(s));
    CwUndoesCcw(s);
  }

  /** Both turns keep a tetromino a tetromino. */
  lemma {:induction false} TurnsKeepWellShaped(s: Matrix)
    requires WellShaped(s)
    ensures WellShaped(RotateCw(s)) && WellShaped(RotateCcw(s))
  {
    CwKeepsCellCount(s);
    CcwKeepsCellCount(s);
  }
}
