# Tetris engine core in Dafny

This project models the rules engine of a small pygame Tetris game. The board is a
20-row by 10-column grid of colour ids, where 0 is an empty cell. A falling piece
carries a shape matrix, a colour and the board position of the matrix's top-left
cell. The piece moves, turns clockwise or counter-clockwise without wall kicks,
hard-drops and locks its colour into the board. The game object spawns pieces and
ends the game when a new piece overlaps the stack. It also keeps one hold slot, which
can be used once per piece. It clears full rows, scoring 40, 100, 300 or 1200 points
(for one to four rows) times the level, and works out where the ghost piece lands. When the game is over, it keeps
a file of the three best scores.

The repository holds two generations of the code, and both are modelled:

- `piece.py`, `game.py` and `settings.py` are the current code.
- `src/piece.py` and `src/settings.py` are the earlier version. That piece has no
  `locked` flag; when it locks, it hands over to the next piece itself.

The board is a Dafny `array2<int>` shared by the pieces and the game, as the global
`grid` is shared in the program. The methods that change it are proved against
functions on a value copy of the board (`Board.Snapshot`):

- `Board.Collides` says whether a shape at a position is blocked.
- `Board.Stamp` writes a shape's colour into the board.
- `Board.Landing` gives the row where a dropped shape comes to rest.
- `Games.Cleared` gives the board after full rows are removed.

The properties of the game are proved as lemmas about those functions. The
high-score file is modelled as text:

- Loading takes the file's content as `Option<string>`, where `None` means no file.
- Saving returns the text it would write.
- The round trip from save to load is proved.

Some of what a reader might expect of a Tetris game is not in this code, and the model
keeps to the code:

- The code keeps no queue of upcoming pieces and no pause state. Each new piece is
  drawn at random when it is needed. `main.py` reads a `paused` flag that it never initialises.
- `move` only locks a piece whose downward step is blocked. Full rows are cleared and
  the next piece spawns on the following `update` (`Games.Game.Advance`).
- The initials prompt accepts up to three letters and upper-cases them. The model
  takes the initials as an unconstrained string parameter.
- The code stores texture objects in the board, looked up by the piece's colour id.
  The model keeps the colour ids themselves; `Settings.ColourLookups` shows that every
  id in use has a colour and a texture.

## Model

| member | source | states |
|---|---|---|
| Geometry.Transpose | piece.py:79 | the result's cell (i, j) is the input's cell (j, i), and the result has the transposed dimensions |
| Geometry.RotateCw | piece.py:79 | the clockwise turn `zip(*shape[::-1])` of a rectangular shape is rectangular, with the numbers of rows and columns swapped; its cells are given by `Geometry.CwAt` |
| Geometry.RotateCcw | piece.py:104 | the counter-clockwise turn `zip(*shape)[::-1]` is rectangular, with the numbers of rows and columns swapped; its cells are given by `Geometry.CcwAt` |
| Geometry.CwAt | piece.py:79 | cell (i, j) of the clockwise turn is cell (rows-1-j, i) of the original: the turn that `zip(*shape[::-1])` performs |
| Geometry.CcwAt | piece.py:104 | cell (i, j) of the counter-clockwise turn is cell (j, cols-1-i) of the original: the turn that `zip(*shape)[::-1]` performs |
| Geometry.CcwUndoesCw | piece.py:79-104 | a counter-clockwise turn undoes a clockwise turn for every rectangular shape |
| Geometry.CwUndoesCcw | piece.py:79-104 | a clockwise turn undoes a counter-clockwise turn for every rectangular shape |
| Geometry.FourTurns | piece.py:79 | four clockwise turns give back the original shape |
| Geometry.CellsCw | piece.py:79 | the occupied cells of the clockwise turn are exactly the images of the original's occupied cells under (r, c) -> (c, rows-1-r) |
| Geometry.CwKeepsCellCount | piece.py:79 | turning clockwise keeps the number of occupied cells (four for a tetromino) |
| Geometry.CcwKeepsCellCount | piece.py:104 | turning counter-clockwise keeps the number of occupied cells |
| Geometry.MaxCell | piece.py:8 | the piece colour `max(max(row) for row in shape)` is a value of some cell and no cell is larger |
| Geometry.CwKeepsColour | piece.py:79 | the colour of a piece does not change when it turns clockwise |
| Geometry.CcwKeepsColour | piece.py:104 | the colour of a piece does not change when it turns counter-clockwise |
| Geometry.TurnsKeepWellShaped | piece.py:79-104 | both turns of a non-empty rectangular shape are again non-empty and rectangular |
| Board.Collides | piece.py:57-66 | defines the answer of `is_valid`: some non-zero cell of the shape lies left or right of the board, at or below the floor, or on an occupied cell (a cell above the top is checked against the columns only); `Board.Scan` is proved to compute it |
| Board.SpawnX | piece.py:9 | the spawn column `WIDTH // 2 - len(shape[0]) // 2`; `Board.SpawnInside` proves that every table shape fits there |
| Board.Landing | piece.py:128-129 | the row where the falling loop stops, never above the start; `Board.LandingRests` proves the shape is free on every row down to it and blocked one row below |
| Board.Stamp | piece.py:40-44 | after stamping, each board cell under a non-zero shape cell holds the colour and every other cell is unchanged; the result is still a 20 by 10 grid |
| Board.StampInRange | piece.py:40-44 | stamping a colour 1..7 into a board whose cells are all 0..7 keeps every cell in 0..7 |
| Board.FreeIsInside | piece.py:57-66 | if a shape at a position not above the top is not blocked, every occupied cell lies on the board |
| Board.TurnFits | piece.py:78-91 | a turned shape that is not blocked is a valid tetromino with the same colour, lying inside the board |
| Board.InsideCollides | piece.py:57-66 | for a shape inside the board, being blocked means exactly that some occupied cell of the shape lies on a non-empty board cell |
| Board.SpawnInside | piece.py:9-10 | a shape spawned at x = WIDTH/2 - width/2 and y = 0 lies inside the board |
| Board.FreeBelowIsAbove | piece.py:128-129 | if a non-empty shape can move one row down, it is not yet at the last row |
| Board.LandingRests | piece.py:128-129 | one row below the landing row the shape is blocked, and at every row from the start down to the landing row it is free |
| Board.OLandsOnFloor | piece.py:118-130 | on an empty board the O piece dropped from any row 0..18 lands on row 18, the floor |
| Board.OStamp | piece.py:40-44 | locking the O piece on the floor of an empty board fills exactly rows 18-19, columns 4-5, with colour 2 |
| Board.OSpawn | piece.py:8-10 | the O piece spawns at column 4 with colour 2 |
| Board.Scan | piece.py:57-66 | the cell-by-cell scan answers true exactly when the shape at the position collides with a wall, the floor or an occupied cell |
| Board.Paint | piece.py:40-43 | the board after painting is the old board with the shape's colour stamped at the position |
| Board.Drop | piece.py:128-129 | the falling loop stops at the landing row, not above the start, with the shape still inside the board |
| Settings.InitialGridEmpty | settings.py:24 | the initial board is 20 rows of 10 empty cells |
| Settings.ShapeCells | settings.py:27-35 | lists the occupied cells of each of the seven shapes |
| Settings.SevenTetrominoes | settings.py:27-35 | the table holds seven shapes, each rectangular and non-empty, with four occupied cells |
| Settings.Tetromino | settings.py:27-35 | shape k of the table is rectangular, non-empty and has four occupied cells |
| Settings.ShapeValues | settings.py:27-35 | every cell of shape k is 0 or k+1 |
| Settings.ShapeColour | settings.py:27-35 | the colour of shape k (its largest cell) is k+1 |
| Settings.ColourLookups | settings.py:38-58 | every colour 0..7 indexes COLORS and names a texture key |
| SrcSettings.InitialGridEmpty | src/settings.py:21 | the initial board of the earlier version is 20 rows of 10 empty cells |
| SrcSettings.SameAsLabelled | src/settings.py:24-43 | the earlier shape table is the labelled table without its letters; the dimensions and colours are the same |
| SrcSettings.Tetrominoes | src/settings.py:24-43 | the earlier table holds seven four-cell shapes with cells 0 or k+1, and eight colours |
| Decimal.DigitChar | game.py:68 | the character for digit d is a decimal digit whose value is d |
| Decimal.Str | game.py:68 | the decimal text of a natural number is non-empty, all digits, and has no leading zero |
| Decimal.ValueOfStr | game.py:51 | reading back the decimal text of n gives n |
| Decimal.IntStrReadsBack | game.py:68 | the text written for any integer score reads back: all digits worth n when n >= 0, and a minus sign followed by digits worth -n otherwise |
| Decimal.StrLength | game.py:152-162 | a number below 10^k has at most k digits |
| Decimal.LeadingZeros | game.py:152-162 | leading zeros keep a digit string all digits and keep its value |
| Decimal.ZerosValue | game.py:152-162 | a run of padding zeros is a digit string worth 0 |
| Decimal.ZeroPad | game.py:152-162 | padding gives the wider of the text and the requested width |
| Decimal.FormatScore | game.py:152-162 | `f"{score:06d}"`: the zero-padded decimal text, six characters wide, with the sign in front for a negative score; `Decimal.FormatScoreSixDigits` proves what it gives for 0..999999 |
| Decimal.FormatScoreSixDigits | game.py:152-162 | every score 0..999999 is shown as exactly six digits whose value is the score |
| Pieces.Piece.constructor | piece.py:6-11 | a new piece has label and shape k of the table, colour k+1, spawns at the centred column on row 0, and is not locked |
| Pieces.Piece.Copy | game.py:295 | the deep copy has the same field values and reads the same board |
| Pieces.Piece.Respawn | game.py:202-203 | a piece taken back out of the hold slot returns to the spawn column and row 0 and stays a valid piece |
| Pieces.Piece.IsValid | piece.py:46-66 | the answer is true exactly when the move (dx, dy) is blocked; nothing changes |
| Pieces.Piece.Stop | piece.py:30-44 | the board becomes the old board with the piece stamped in its colour, and the piece is locked |
| Pieces.Piece.Move | piece.py:13-28 | a free move translates the piece and leaves the board alone; a blocked one-row fall locks the piece and stamps it; any other blocked move changes nothing |
| Pieces.Piece.Rotate | piece.py:68-91 | the shape becomes its clockwise turn if the turn fits where the piece is, and stays as it was otherwise; the piece stays valid |
| Pieces.Piece.RotateCounter | piece.py:93-116 | the shape becomes its counter-clockwise turn if the turn fits, and stays as it was otherwise |
| Pieces.Piece.Fall | piece.py:128-129 | the piece moves straight down to its landing row |
| Pieces.Piece.InstantDrop | piece.py:118-130 | the piece lands at its landing row in the same column, and its colour is stamped there; it is locked |
| SrcPieces.Piece.constructor | src/piece.py:5-9 | a new piece has label and shape k of the table, colour k+1, and spawns at the centred column on row 0 |
| SrcPieces.Piece.IsValid | src/piece.py:27-37 | the answer is true exactly when the move is blocked; nothing changes |
| SrcPieces.Piece.Stop | src/piece.py:18-25 | the piece's colour is stamped into the board and a fresh next piece of label and shape k, colour k+1, is spawned at the centred column on row 0 |
| SrcPieces.Piece.Move | src/piece.py:11-16 | a free move translates and leaves the board alone; a next piece is returned exactly when a one-row fall is blocked, and then the board holds the stamped piece and the next piece has label, shape and colour k at the spawn position; other blocked moves change nothing |
| SrcPieces.Piece.Rotate | src/piece.py:39-52 | the shape becomes its clockwise turn if the turn fits, and stays as it was otherwise |
| SrcPieces.Piece.InstantDrop | src/piece.py:54-57 | the piece falls to its landing row and is stamped there, and the returned next piece has label, shape and colour k at the spawn column on row 0 |
| SrcPieces.KeepOrTurn | src/piece.py:42-52 | the scan that does not stop at an occupied cell still keeps the old shape exactly when the turned shape collides |
| Games.Kept | game.py:218-222 | the rows that are not full, in their order, never more rows than the board; `Games.KeptRows` and `Games.KeptAppend` characterise them |
| Games.FullCount | game.py:218-222 | the number of full rows, at most the number of rows; `Games.KeptRows` and `Games.NoFullRows` relate it to the kept rows |
| Games.Cleared | game.py:216-226 | the board after clearing: one empty row on top for each full row, then the kept rows; its properties are proved by `Games.ClearedIsGrid`, `Games.ClearedHasNoFullRow` and `Games.ClearIdempotent` |
| Games.EmptyRowsNotFull | game.py:223-224 | the padding rows are not full, so counting them finds no full row and keeping them keeps them all |
| Games.LineScore | game.py:227-229 | clearing 1 to 4 rows scores points, and clearing any other count scores nothing |
| Games.KeptRows | game.py:218-222 | the kept rows and the full rows together account for every row, and a row is kept exactly when it is in the board and not full |
| Games.KeptAppend | game.py:218-222 | filtering the rows is done row by row: keeping distributes over concatenation |
| Games.NoFullRows | game.py:218-222 | the full-row count is zero exactly when no row is full, and then every row is kept |
| Games.ClearedIsGrid | game.py:216-226 | clearing keeps the board 20 by 10 and puts one empty row on top for each full row removed |
| Games.ClearedHasNoFullRow | game.py:216-226 | after clearing, no row is full |
| Games.NothingToClear | game.py:216-226 | a board without full rows is not changed by clearing |
| Games.ClearIdempotent | game.py:216-226 | clearing twice is the same as clearing once |
| Games.ClearedInRange | game.py:216-226 | clearing keeps every cell a colour id 0..7 |
| Games.ClearRows | game.py:216-226 | the in-place clearing counts the full rows and leaves the cleared board |
| Games.SplitRows | game.py:218-222 | the row scan returns the number of full rows and the kept rows in order |
| Games.CopyRows | game.py:225-226 | after the copy the board holds exactly the given rows |
| Games.ReadRow | game.py:218 | returns row r of the board |
| Games.Overlaps | game.py:176-183 | the spawn check answers true exactly when the new piece collides with the board |
| Games.Game.constructor | game.py:11-31 | a new game has a fresh unlocked piece with label, shape and colour k at the spawn column on row 0, an empty hold, score 0, level 1, no cleared rows, no high scores, and is not over |
| Games.Game.NewPiece | game.py:164-183 | a fresh unlocked piece with label, shape and colour k spawns at the spawn column on row 0, the hold slot is freed, the game is over exactly when it was already or the new piece overlaps the board, and the board is unchanged |
| Games.Game.Hold | game.py:185-204 | once per piece: with an empty slot the current piece goes into it unchanged and a fresh unlocked piece with label, shape and colour k spawns at the spawn position; otherwise the held and current pieces swap, the piece taken out keeps its label, shape, colour and lock flag and restarts at the spawn position; a second hold changes nothing |
| Games.Game.ClearLines | game.py:206-230 | the board becomes the cleared board, the score grows by the line score of the full-row count times the level, and the cleared-row count grows by that count |
| Games.Game.GhostLanding | game.py:295-297 | the ghost row is the current piece's landing row, not above the piece |
| Games.GhostMatchesDrop | game.py:295-297 | on an empty board the ghost of a newly spawned O piece is on row 18, the floor |
| Games.Game.FinishGame | game.py:399-403 | the high scores are worked out once: the first call gives the load-merge-save result for the stored file, and later calls change nothing and write nothing |
| Games.Game.Advance | game.py:404-406 | when the piece has locked, the board is cleared, score and cleared-row count grow by the points and the count of full rows, a fresh unlocked piece with label, shape and colour k spawns at the spawn position, the hold is freed, and the game is over exactly when that piece overlaps; otherwise nothing changes |
| Games.Game.Update | game.py:384-406 | the hold slot and the level never change; when the game is over, only the high scores change: the first call gives the load-merge-save result, a later call changes and writes nothing, and board, pieces, hold flag, score and cleared rows stay; while the game runs, the high scores, the new-high flag and the updated flag stay and nothing is written, a locked piece leads to the cleared board, the new score and count, a fresh unlocked piece with the label, shape and colour k + 1 of shape k at the spawn position, a free hold and the game-over test, and an unlocked piece leaves everything unchanged |
| HighScores.LStrip | game.py:46 | removes exactly the leading whitespace: the result is a suffix with no leading space, and everything removed is space |
| HighScores.RStrip | game.py:46 | removes exactly the trailing whitespace |
| HighScores.Strip | game.py:46 | `strip()`: trailing whitespace removed after leading whitespace; `HighScores.StripJoined` proves what it leaves of saved text |
| HighScores.SplitLines | game.py:46 | `splitlines()`: the text cut at each line break ("\r\n" as one break), with no empty last line; `HighScores.SplitFirstLine` and `HighScores.SplitInterleaved` prove how it splits |
| HighScores.BreakAtFirst | game.py:46 | the line split stops at the first line-break character |
| HighScores.LastSpaceFound | game.py:49 | the last-space search finds a space with no space after it, or reports that there is none |
| HighScores.RSplitSpaceParts | game.py:49 | `rsplit(' ', 1)` gives one part exactly when there is no space, and otherwise the text before and after the last space |
| HighScores.RSplitSpace | game.py:49 | `rsplit(' ', 1)`: the whole line, or the parts before and after the last space; `HighScores.RSplitSpaceParts` proves this |
| HighScores.ParseLine | game.py:49-51 | a line gives an entry when its last-space split has two parts and the second is a non-empty digit string, the score being its value; `HighScores.LineParses` proves that written lines parse back |
| HighScores.ParseLines | game.py:48-51 | parsing never gives more entries than lines |
| HighScores.Loaded | game.py:44-54 | the list `load_high_scores` returns: no entries without a file, else the entries of the well-formed lines of the stripped text; `HighScores.Load` computes it and `HighScores.SaveThenLoad` inverts it |
| HighScores.Load | game.py:44-54 | the loop collects, in order, the entries of the well-formed lines of the stripped text; with no file the list is empty |
| HighScores.ParsedFrom | game.py:48-51 | parsing from line i is the entry of line i, if it is well formed, followed by the parse of the lines after it |
| HighScores.Line | game.py:68 | the line `f"{initials} {score}"` of one entry; `HighScores.LineParses` and `HighScores.LineShape` prove it parses back and has no line break |
| HighScores.Serialised | game.py:66-68 | the text of the saved file, one line per entry ended by a newline; `HighScores.Save` computes it and `HighScores.SaveThenLoad` reads it back |
| HighScores.Save | game.py:66-68 | the text written is one "initials score" line per entry, in order, each ended by a newline |
| HighScores.LinesAt | game.py:67-68 | line k of the written text is the line of entry k |
| HighScores.LastSpaceOf | game.py:49 | the last space of "a b", where b has no space, is the one after a |
| HighScores.LineParses | game.py:49-51 | a written line of an entry whose name is non-empty, does not start with whitespace and has no line break, and whose score is non-negative, parses back to that entry (inner spaces in the name survive, since the split is at the last space) |
| HighScores.LineShape | game.py:68 | a written line starts with the name's first character, ends with a digit, and has no line break |
| HighScores.NoBreakAt | game.py:46 | a line without line-break characters is not split |
| HighScores.SplitFirstLine | game.py:46 | splitting "line\nrest" gives the line followed by the lines of rest |
| HighScores.JoinedInterleaved | game.py:66-68 | the written text is the lines joined by newlines, plus a final newline |
| HighScores.InterleavedEnds | game.py:66-68 | the joined text starts with the first line's first character and ends with the last line's last character |
| HighScores.InterleavedLast | game.py:66-68 | the joined text ends with the last line's last character |
| HighScores.SplitInterleaved | game.py:46 | splitting lines joined by newlines gives back the lines |
| HighScores.StripJoined | game.py:46 | stripping the written text removes exactly the final newline |
| HighScores.ParseWritten | game.py:48-51 | parsing the written lines of storable entries gives back the entries |
| HighScores.WrittenLineCons | game.py:48-51 | a written line in front parses to its entry in front |
| HighScores.ParseLinesCons | game.py:48-51 | a well-formed line in front contributes its entry in front |
| HighScores.SaveThenLoad | game.py:44-68 | loading the text saved from any list of storable entries (names non-empty, not starting with whitespace, without line breaks; scores non-negative) gives back the same list |
| HighScores.MinScore | game.py:86 | `min(score for _, score in old_scores)` of a non-empty list; `HighScores.MinScoreIsLowest` proves it is the lowest score |
| HighScores.MinScoreIsLowest | game.py:86 | `min(score for _, score in old_scores)` is the score of some entry and no entry scores lower |
| HighScores.SortDesc | game.py:92 | `sorted(scores, key=score, reverse=True)` as an insertion sort; `HighScores.SortDescSorted`, `HighScores.SortDescPermutes` and `HighScores.SortDescStable` prove it sorted, a permutation and stable |
| HighScores.Top3 | game.py:92 | the slice `[:3]`: the first three entries, or all of them when there are fewer |
| HighScores.InsertDescKeeps | game.py:92 | inserting into the descending list adds exactly that entry |
| HighScores.InsertDescAbove | game.py:92 | inserting keeps every score at or above a bound that all entries meet |
| HighScores.InsertDescSorted | game.py:92 | inserting into a descending list keeps it descending |
| HighScores.InsertDescStable | game.py:92 | inserting puts the new entry after the entries with the same score |
| HighScores.SortDescSorted | game.py:92 | `sorted(..., reverse=True)` by score gives a list in descending order of score |
| HighScores.SortDescPermutes | game.py:92 | sorting gives a permutation of the entries |
| HighScores.SortDescStable | game.py:92 | sorting is stable: entries with equal scores keep their relative order |
| HighScores.SortDescOfSorted | game.py:92 | sorting a list that is already descending leaves it unchanged |
| HighScores.IsNewHigh | game.py:86 | the new-high test: fewer than three entries stored, or the score beats the lowest |
| HighScores.Merged | game.py:91-92 | the list kept on a new high: the top three of the stored entries plus the new one, sorted; `HighScores.MergedIsTopThree` proves what it holds |
| HighScores.Updated | game.py:84-96 | what `update_high_scores` returns and writes: on a new high the merged list, true and its text, otherwise the stored list, false and no write; `HighScores.UpdateHighScores` computes it |
| HighScores.UpdateHighScores | game.py:70-96 | the score is a new high exactly when fewer than three entries are stored or it beats the lowest; then the list is the top three of the sorted merge and is written back, otherwise the stored list stays and nothing is written |
| HighScores.MergedIsTopThree | game.py:91-92 | the merged list has at most three entries, is descending, is drawn from the old entries plus the new one, has the full length when fewer are available, and no dropped entry outscores a kept one |
| HighScores.NewHighIsKept | game.py:86-92 | with at most three stored entries, a new high score is in the saved list |
| HighScores.AboveLowestInFirstThree | game.py:92 | in a descending list of four, an entry that outscores another entry is among the first three |
| HighScores.NewHighDroppedFromLongFile | game.py:86-92 | with four entries stored, a score above the lowest but below the third counts as a new high and is still cut from the top three |

## Left out

- Rendering and input handling (the pygame drawing methods of `game.py`, `main.py`, `src/main.py`) are not modelled. They read the state and do not change the rules.
- The main loops, the falling timer and the `paused` flag that `main.py` reads but never initialises are not modelled. The timer's effect is a `Move(0, 1)` followed by `Update`, and both are modelled.
- `src/game.py` is not part of this model. The current `game.py` replaces it.
- `random.choice` is replaced by the table index `k` of the chosen shape, a parameter of every operation that spawns a piece.
- `get_initials_input` (game.py:98-150) is an event loop over key presses that builds up to three upper-cased letters. The model takes its answer as the unconstrained `initials` parameter, so it does not promise the three-letter limit.
- File reading and writing: the high-score file's content is a parameter (`None` when the file is missing), and the saved text is a result. The bare `except` in `load_high_scores` is modelled only for a missing file.
- HighScores.Load: a digit check here accepts only ASCII `0`-`9`. Python's `isdigit` also accepts other Unicode digits, so that `int()` could then fail or read them. Such lines are skipped here.
- The ghost piece's colour arithmetic (game.py:298-300) and its transparency are drawing and are left out. Only the landing row is modelled.
- Cell values are colour ids 0..7 rather than texture objects (see `Settings.ColourLookups`).
- Pieces.Piece.Move: requires `dy >= 0`. Every caller moves sideways or down. An upward move from row 0 would index the board at a negative row, which Python wraps around to the bottom row; that is not modelled.
- SrcPieces.Piece.Move: requires `dy >= 0`, for the same reason.
- `src/piece.py` imports `SHAPES` from a module named `settings` and unpacks each entry as a (label, shape) pair (src/piece.py:6). Only the labelled table of `settings.py` has that form, so the model spawns from it. The unlabelled table of `src/settings.py` would not unpack that way. `SrcSettings.SameAsLabelled` proves that the two tables hold the same shapes in the same order.
- The level never changes in the code (nothing raises it), so the model keeps it at 1.
