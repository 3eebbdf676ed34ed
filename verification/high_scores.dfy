/** The high-score table of game.py (game.py:33-96): the text file `highscores.txt`
    holds one `"<initials> <score>"` line per entry; loading parses it back, and a
    finished game's score is merged in, the list sorted by score (highest first, ties
    in their earlier order) and cut to three entries. The file itself is not read or
    written here: its text comes in as `Some(text)` (or `None` when it cannot be
    read) and the text to write goes out as a value. */
module HighScores {
  import opened Decimal

  datatype Option<T> = None | Some(value: T)

  /** One row of the table: the player's initials and their score. */
  datatype Entry = Entry(name: string, score: int)

  // ---------------------------------------------------------------------------
  // The text layer: `strip()`, `splitlines()`, `rsplit(" ", 1)`, `isdigit()`.

  /** `str.isspace` for a single character. */
  predicate IsSpace(c: char) {
    var n := c as int;
    n == 0x20 || 0x09 <= n <= 0x0D || 0x1C <= n <= 0x1F || n == 0x85 || n == 0xA0 ||
    n == 0x1680 || 0x2000 <= n <= 0x200A || n == 0x2028 || n == 0x2029 || n == 0x202F ||
    n == 0x205F || n == 0x3000
  }

  /** The characters at which `str.splitlines` ends a line ("\r\n" counts as one). */
  predicate IsLineBreak(c: char) {
    var n := c as int;
    0x0A <= n <= 0x0D || 0x1C <= n <= 0x1E || n == 0x85 || n == 0x2028 || n == 0x2029
  }

  /** Leading whitespace removed. */
  function LStrip(s: string): (r: string)
    ensures |r| <= |s| && r == s[|s| - |r|..]
    ensures r == [] || !IsSpace(r[0])
    ensures forall i :: 0 <= i < |s| - |r| ==> IsSpace(s[i])
  {
    if |s| > 0 && IsSpace(s[0]) then LStrip(s[1..]) else s
  }

  /** Trailing whitespace removed. */
  function RStrip(s: string): (r: string)
    ensures |r| <= |s| && r == s[..|r|]
    ensures r == [] || !IsSpace(r[|r| - 1])
    ensures forall i :: |r| <= i < |s| ==> IsSpace(s[i])
  {
    if |s| > 0 && IsSpace(s[|s| - 1]) then RStrip(s[..|s| - 1]) else s
  }

  /** `str.strip()`. */
  function Strip(s: string): (t: string) {
    RStrip(LStrip(s))
  }

  /** The index of the first line break, or `|s|` when there is none. */
  function BreakAt(s: string): (i: nat)
    ensures i <= |s|
  {
    if |s| == 0 || IsLineBreak(s[0]) then 0 else 1 + BreakAt(s[1..])
  }

  /** The index found is that of the first line break: there is one there (unless it
      is the end), and none before it. */
  lemma {:induction false} BreakAtFirst(s: string)
    ensures BreakAt(s) < |s| ==> IsLineBreak(s[BreakAt(s)])
    ensures forall j :: 0 <= j < BreakAt(s) ==> !IsLineBreak(s[j])
    decreases |s|
  {
    if |s| > 0 && !IsLineBreak(s[0]) {
      BreakAtFirst(s[1..]);
      forall j | 0 < j < BreakAt(s) ensures !IsLineBreak(s[j]) {
        assert s[j] == s[1..][j - 1];
      }
    }
  }

  /** `str.splitlines()`: the text cut at each line break, the breaks dropped; a
      final break does not start another (empty) line. */
  function SplitLines(s: string): (lines: seq<string>)
    decreases |s|
  {
    if |s| == 0 then []
    else
      var i := BreakAt(s);
      if i == |s| then [s]
      else
        var next := if s[i] == '\r' && i + 1 < |s| && s[i + 1] == '\n' then i + 2 else i + 1;
        [s[..i]] + SplitLines(s[next..])
  }

  /** The position of the last space, if any. */
  function LastSpace(s: string): (r: Option<nat>)
    ensures r.Some? ==> r.value < |s|
  {
    if |s| == 0 then None
    else if s[|s| - 1] == ' ' then Some(|s| - 1)
    else LastSpace(s[..|s| - 1])
  }

  /** The position found holds a space and none follows it; no position is found
      only when there is no space at all. */
  lemma {:induction false} LastSpaceFound(s: string)
    ensures LastSpace(s).Some? ==> s[LastSpace(s).value] == ' ' && ' ' !in s[LastSpace(s).value + 1..]
    ensures LastSpace(s).None? ==> ' ' !in s
    decreases |s|
  {
    if |s| > 0 && s[|s| - 1] != ' ' {
      var init := s[..|s| - 1];
      LastSpaceFound(init);
      assert s == init + [s[|s| - 1]];
      match LastSpace(init)
      case None =>
      case Some(i) =>
        assert s[i + 1..] == init[i + 1..] + [s[|s| - 1]];
    }
  }

  /** `line.rsplit(" ", 1)`: the line cut at its last space into two parts, or the
      whole line as one part when it has no space. */
  function RSplitSpace(line: string): (parts: seq<string>) {
    match LastSpace(line)
    case None => [line]
    case Some(i) => [line[..i], line[i + 1..]]
  }

  /** `rsplit(" ", 1)` gives the whole line when it has no space, and otherwise the
      text before and after its last space, the second part holding no space. */
  lemma RSplitSpaceParts(line: string)
    ensures var parts := RSplitSpace(line);
      1 <= |parts| <= 2 &&
      (|parts| == 1 <==> ' ' !in line) &&
      (|parts| == 1 ==> parts[0] == line) &&
      (|parts| == 2 ==> line == parts[0] + " " + parts[1] && ' ' !in parts[1])
  {
    LastSpaceFound(line);
    match LastSpace(line)
    case None =>
    case Some(i) =>
      assert line == line[..i] + " " + line[i + 1..];
  }

  /** `str.isdigit()`, for the ASCII digits: non-empty and every character a digit. */
  predicate IsDigitString(s: string) {
    |s| > 0 && AllDigits(s)
  }

  /** The body of the loop in `load_high_scores` (game.py:49-51): a line is an entry
      when it splits at its last space into two parts whose second is all digits. */
  function ParseLine(line: string): (entry: Option<Entry>) {
    var parts := RSplitSpace(line);
    if |parts| == 2 && IsDigitString(parts[1]) then Some(Entry(parts[0], Value(parts[1])))
    else None
  }

  /** The entries of the lines that parse, in order. */
  function ParseLines(lines: seq<string>): (es: seq<Entry>)
    ensures |es| <= |lines|
  {
    if |lines| == 0 then []
    else
      var rest := ParseLines(lines[1..]);
      match ParseLine(lines[0])
      case Some(e) => [e] + rest
      case None => rest
  }

  /** What `load_high_scores` returns for the file's text (`None`: it could not be
      read, so the `except` branch answers the empty list). */
  function Loaded(file: Option<string>): (entries: seq<Entry>) {
    match file
    case None => []
    case Some(text) => ParseLines(SplitLines(Strip(text)))
  }

  /** `load_high_scores` (game.py:44-54), after the file has been read. */
  method Load(file: Option<string>) returns (scores: seq<Entry>)
    ensures scores == Loaded(file)
  {
    if file.None? {
      return [];
    }
    var lines := SplitLines(Strip(file.value));
    scores := [];
    var i := 0;
    while i < |lines|
      invariant 0 <= i <= |lines|
      invariant ParseLines(lines) == scores + ParseLines(lines[i..])
    {
      ParsedFrom(lines, i);
      var parts := RSplitSpace(lines[i]);
      if |parts| == 2 && IsDigitString(parts[1]) {
        scores := scores + [Entry(parts[0], Value(parts[1]))];
      }
      i := i + 1;
    }
    assert lines[i..] == [];
  }

  /** The entries from line `i` on: those of line `i`, then those of the lines after. */
  lemma ParsedFrom(lines: seq<string>, i: nat)
    requires i < |lines|
    ensures ParseLines(lines[i..]) ==
      (match ParseLine(lines[i]) case Some(e) => [e] case None => []) + ParseLines(lines[i + 1..])
  {
    assert lines[i..][1..] == lines[i + 1..];
  }

  /** One line as `save_high_scores` writes it, before its "\n": `f"{initials} {score}"`. */
  function Line(e: Entry): (text: string) {
    e.name + " " + IntStr(e.score)
  }

  /** The lines of a list of entries, in order. */
  function Lines(es: seq<Entry>): (ls: seq<string>)
    ensures |ls| == |es|
  {
    if |es| == 0 then [] else [Line(es[0])] + Lines(es[1..])
  }

  /** Lines of text, each followed by "\n". */
  function Joined(ls: seq<string>): (text: string)
    ensures |text| >= |ls|
  {
    if |ls| == 0 then "" else ls[0] + "\n" + Joined(ls[1..])
  }

  /** The whole file `save_high_scores` writes. */
  function Serialised(es: seq<Entry>): (text: string) {
    Joined(Lines(es))
  }

  /** `save_high_scores` (game.py:66-68): the text the loop writes to the file. */
  method Save(scores: seq<Entry>) returns (text: string)
    ensures text == Serialised(scores)
  {
    text := "";
    var i := 0;
    assert scores[i..] == scores;
    while i < |scores|
      invariant 0 <= i <= |scores|
      invariant text + Serialised(scores[i..]) == Serialised(scores)
    {
      assert scores[i..][1..] == scores[i + 1..];
      text := text + Line(scores[i]) + "\n";
      i := i + 1;
    }
    assert scores[i..] == [];
  }

  /** The lines of a list are its entries' lines, one by one. */
  lemma {:induction false} LinesAt(es: seq<Entry>)
    ensures forall k :: 0 <= k < |es| ==> Lines(es)[k] == Line(es[k])
    decreases |es|
  {
    if |es| > 0 {
      var rest := es[1..];
      LinesAt(rest);
      forall k | 0 < k < |es| ensures Lines(es)[k] == Line(es[k]) {
        assert Lines(es)[k] == Lines(rest)[k - 1] && rest[k - 1] == es[k];
      }
    }
  }

  // ---------------------------------------------------------------------------
  // Reading back what was written.

  /** Names as the initials prompt produces them: something before the space, not
      starting with whitespace, and no line breaks. */
  predicate GoodName(name: string) {
    |name| > 0 && !IsSpace(name[0]) && forall c :: c in name ==> !IsLineBreak(c)
  }

  /** Entries whose lines read back as themselves. */
  predicate Writable(es: seq<Entry>) {
    forall k :: 0 <= k < |es| ==> GoodName(es[k].name) && es[k].score >= 0
  }

  /** Non-empty lines without line breaks. */
  predicate PlainLines(ls: seq<string>) {
    forall k :: 0 <= k < |ls| ==> |ls[k]| > 0 && forall c :: c in ls[k] ==> !IsLineBreak(c)
  }

  /** In `a + " " + b` with no space in `b`, the last space is the one after `a`. */
  lemma {:induction false} LastSpaceOf(a: string, b: string)
    requires ' ' !in b
    ensures LastSpace(a + " " + b) == Some(|a|)
    decreases |b|
  {
    var s := a + " " + b;
    if |b| == 0 {
      assert s[|s| - 1] == ' ';
    } else {
      assert s[..|s| - 1] == a + " " + b[..|b| - 1];
      assert s[|s| - 1] == b[|b| - 1] && b[|b| - 1] in b;
      LastSpaceOf(a, b[..|b| - 1]);
    }
  }

  /** A written line parses back to its entry. */
  lemma {:induction false} LineParses(e: Entry)
    requires GoodName(e.name) && e.score >= 0
    ensures ParseLine(Line(e)) == Some(e)
  {
    var digits := Str(e.score);
    assert ' ' !in digits by {
      forall i | 0 <= i < |digits| ensures digits[i] != ' ' {
        assert IsDigit(digits[i]);
      }
    }
    LastSpaceOf(e.name, digits);
    ValueOfStr(e.score);
    var line := Line(e);
    assert line[..|e.name|] == e.name;
    assert line[|e.name| + 1..] == digits;
  }

  /** A written line is non-empty, holds no line break, starts like the name and ends
      with a digit. */
  lemma {:induction false} LineShape(e: Entry)
    requires GoodName(e.name) && e.score >= 0
    ensures |Line(e)| > 0 && Line(e)[0] == e.name[0] && IsDigit(Line(e)[|Line(e)| - 1])
    ensures forall c :: c in Line(e) ==> !IsLineBreak(c)
  {
    var digits := Str(e.score);
    var line := Line(e);
    assert line == e.name + " " + digits;
    forall c | c in line ensures !IsLineBreak(c) {
      if c in digits {
        var i :| 0 <= i < |digits| && digits[i] == c;
        assert IsDigit(digits[i]);
      }
    }
    assert line[|line| - 1] == digits[|digits| - 1];
  }

  /** A text with no line break is one line. */
  lemma {:induction false} NoBreakAt(line: string)
    requires forall c :: c in line ==> !IsLineBreak(c)
    ensures BreakAt(line) == |line|
  {
    BreakAtFirst(line);
    forall j | 0 <= j < |line| ensures !IsLineBreak(line[j]) {
      assert line[j] in line;
    }
  }

  /** A line with no break, then "\n", then more text: `splitlines` gives the line
      and then the lines of the rest. */
  lemma {:induction false} SplitFirstLine(line: string, rest: string)
    requires forall c :: c in line ==> !IsLineBreak(c)
    ensures SplitLines(line + "\n" + rest) == [line] + SplitLines(rest)
  {
    var s := line + "\n" + rest;
    forall j | 0 <= j < |line| ensures !IsLineBreak(s[j]) {
      assert s[j] == line[j] && line[j] in line;
    }
    assert s[|line|] == '\n';
    BreakAtFirst(s);
    assert BreakAt(s) == |line|;
    assert s[..|line|] == line;
    assert s[|line| + 1..] == rest;
  }

  /** The lines with "\n" between them, as `"\n".join(ls)`. */
  function Interleaved(ls: seq<string>): string
    requires |ls| > 0
  {
    if |ls| == 1 then ls[0] else ls[0] + "\n" + Interleaved(ls[1..])
  }

  /** The joined text is the lines with "\n" between them, then one more "\n". */
  lemma {:induction false} JoinedInterleaved(ls: seq<string>)
    requires |ls| > 0
    ensures Joined(ls) == Interleaved(ls) + "\n"
    decreases |ls|
  {
    if |ls| == 1 {
      assert Joined(ls[1..]) == "";
    } else {
      JoinedInterleaved(ls[1..]);
    }
  }

  /** The lines with "\n" between them start with the first line's first character
      and end with the last line's last character. */
  lemma InterleavedEnds(ls: seq<string>)
    requires |ls| > 0 && |ls[0]| > 0 && |ls[|ls| - 1]| > 0
    ensures var text, last := Interleaved(ls), ls[|ls| - 1];
      |text| > 0 && text[0] == ls[0][0] && text[|text| - 1] == last[|last| - 1]
  {
    InterleavedLast(ls);
  }

  /** The lines with "\n" between them end with the last line's last character. */
  lemma {:induction false} InterleavedLast(ls: seq<string>)
    requires |ls| > 0 && |ls[|ls| - 1]| > 0
    ensures var text, last := Interleaved(ls), ls[|ls| - 1];
      |text| > 0 && text[|text| - 1] == last[|last| - 1]
    decreases |ls|
  {
    if |ls| > 1 {
      var rest := ls[1..];
      assert rest[|rest| - 1] == ls[|ls| - 1];
      InterleavedLast(rest);
    }
  }

  /** The lines with "\n" between them split back into the lines. */
  lemma {:induction false} SplitInterleaved(ls: seq<string>)
    requires |ls| > 0 && PlainLines(ls)
    ensures SplitLines(Interleaved(ls)) == ls
    decreases |ls|
  {
    if |ls| == 1 {
      NoBreakAt(ls[0]);
    } else {
      var rest := ls[1..];
      PlainLinesTail(ls);
      SplitInterleaved(rest);
      SplitFirstLine(ls[0], Interleaved(rest));
      assert ls == [ls[0]] + rest;
    }
  }

  /** The lines after the first are plain too. */
  lemma PlainLinesTail(ls: seq<string>)
    requires |ls| > 0 && PlainLines(ls)
    ensures PlainLines(ls[1..])
  {
    var rest := ls[1..];
    forall k | 0 <= k < |rest| ensures |rest[k]| > 0 && forall c :: c in rest[k] ==> !IsLineBreak(c) {
      assert rest[k] == ls[k + 1];
    }
  }

  /** `strip()` takes off the final "\n" of the joined text and nothing else when the
      first and last characters of the lines are not whitespace. */
  lemma {:induction false} StripJoined(ls: seq<string>)
    requires |ls| > 0 && PlainLines(ls)
    requires !IsSpace(ls[0][0]) && !IsSpace(ls[|ls| - 1][|ls[|ls| - 1]| - 1])
    ensures Strip(Joined(ls)) == Interleaved(ls)
  {
    JoinedInterleaved(ls);
    InterleavedEnds(ls);
    var text, body := Joined(ls), Interleaved(ls);
    assert text[0] == body[0];
    assert LStrip(text) == text;
    assert text[..|text| - 1] == body;
    assert RStrip(text) == RStrip(body);
  }

  /** The written lines parse back to the entries. */
  lemma {:induction false} ParseWritten(es: seq<Entry>)
    requires Writable(es)
    ensures ParseLines(Lines(es)) == es
    decreases |es|
  {
    if |es| > 0 {
      var rest := es[1..];
      WritableTail(es);
      ParseWritten(rest);
      WrittenLineCons(es[0], Lines(rest));
      assert es == [es[0]] + rest;
    }
  }

  /** The entries after the first are writable too. */
  lemma WritableTail(es: seq<Entry>)
    requires |es| > 0 && Writable(es)
    ensures Writable(es[1..])
  {
    var rest := es[1..];
    forall k | 0 <= k < |rest| ensures GoodName(rest[k].name) && rest[k].score >= 0 {
      assert rest[k] == es[k + 1];
    }
  }

  /** A written line in front of more lines puts its entry in front of their
      entries. */
  lemma WrittenLineCons(e: Entry, lines: seq<string>)
    requires GoodName(e.name) && e.score >= 0
    ensures ParseLines([Line(e)] + lines) == [e] + ParseLines(lines)
  {
    LineParses(e);
    ParseLinesCons(Line(e), lines, e);
  }

  /** A line that parses to `e`, in front of more lines, puts `e` in front of their
      entries. */
  lemma ParseLinesCons(line: string, lines: seq<string>, e: Entry)
    requires ParseLine(line) == Some(e)
    ensures ParseLines([line] + lines) == [e] + ParseLines(lines)
  {
    assert ([line] + lines)[1..] == lines;
  }

  /** Loading the text that `save_high_scores` writes gives back the saved list, for
      non-negative scores and names as the prompt produces them. */
  lemma {:induction false} SaveThenLoad(es: seq<Entry>)
    requires Writable(es)
    ensures Loaded(Some(Serialised(es))) == es
  {
    var ls := Lines(es);
    if |es| == 0 {
      assert Serialised(es) == "";
      assert Strip("") == "";
    } else {
      LinesAt(es);
      assert PlainLines(ls) by {
        forall k | 0 <= k < |ls| ensures |ls[k]| > 0 && forall c :: c in ls[k] ==> !IsLineBreak(c) {
          LineShape(es[k]);
        }
      }
      LineShape(es[0]);
      LineShape(es[|es| - 1]);
      StripJoined(ls);
      SplitInterleaved(ls);
      ParseWritten(es);
    }
  }

  // ---------------------------------------------------------------------------
  // Merging a new score.

  /** `min(score for _, score in old_scores)`. */
  function MinScore(es: seq<Entry>): (m: int)
    requires |es| > 0
  {
    if |es| == 1 then es[0].score
    else
      var m := MinScore(es[..|es| - 1]);
      if es[|es| - 1].score < m then es[|es| - 1].score else m
  }

  /** The minimum is one of the scores and no score is below it. */
  lemma {:induction false} MinScoreIsLowest(es: seq<Entry>)
    requires |es| > 0
    ensures exists i :: 0 <= i < |es| && es[i].score == MinScore(es)
    ensures forall i :: 0 <= i < |es| ==> MinScore(es) <= es[i].score
    decreases |es|
  {
    if |es| > 1 {
      var init := es[..|es| - 1];
      MinScoreIsLowest(init);
      var i :| 0 <= i < |init| && init[i].score == MinScore(init);
      if es[|es| - 1].score >= MinScore(init) {
        assert es[i].score == MinScore(es);
      } else {
        assert es[|es| - 1].score == MinScore(es);
      }
      forall j | 0 <= j < |es|
        ensures MinScore(es) <= es[j].score
      {
        if j < |init| {
          assert es[j] == init[j];
        }
      }
    } else {
      assert es[0].score == MinScore(es);
    }
  }

  /** Highest score first. */
  predicate SortedDesc(es: seq<Entry>) {
    forall i, j :: 0 <= i < j < |es| ==> es[i].score >= es[j].score
  }

  /** The entries with score `v`, in order. */
  function WithScore(es: seq<Entry>, v: int): (r: seq<Entry>)
    ensures |r| <= |es|
  {
    if |es| == 0 then []
    else WithScore(es[..|es| - 1], v) + (if es[|es| - 1].score == v then [es[|es| - 1]] else [])
  }

  /** `e` placed into the descending list `s` after every entry with a score at
      least its own. */
  function InsertDesc(s: seq<Entry>, e: Entry): (r: seq<Entry>)
    ensures |r| == |s| + 1
  {
    if |s| == 0 || s[|s| - 1].score >= e.score then s + [e]
    else InsertDesc(s[..|s| - 1], e) + [s[|s| - 1]]
  }

  /** `sorted(scores, key=lambda x: x[1], reverse=True)`: Python's sort is stable, and
      `reverse=True` keeps entries of equal score in their original order. */
  function SortDesc(es: seq<Entry>): (r: seq<Entry>)
    ensures |r| == |es|
  {
    if |es| == 0 then [] else InsertDesc(SortDesc(es[..|es| - 1]), es[|es| - 1])
  }

  /** Inserting adds exactly `e`. */
  lemma {:induction false} InsertDescKeeps(s: seq<Entry>, e: Entry)
    ensures multiset(InsertDesc(s, e)) == multiset(s) + multiset{e}
    decreases |s|
  {
    if |s| > 0 && s[|s| - 1].score < e.score {
      var init, last := s[..|s| - 1], s[|s| - 1];
      InsertDescKeeps(init, e);
      assert s == init + [last];
    }
  }

  /** Inserting keeps a lower bound on the scores. */
  lemma {:induction false} InsertDescAbove(s: seq<Entry>, e: Entry, m: int)
    requires forall i :: 0 <= i < |s| ==> s[i].score >= m
    requires e.score >= m
    ensures forall i :: 0 <= i < |InsertDesc(s, e)| ==> InsertDesc(s, e)[i].score >= m
    decreases |s|
  {
    if |s| > 0 && s[|s| - 1].score < e.score {
      InsertDescAbove(s[..|s| - 1], e, m);
    }
  }

  /** Inserting into a descending list gives a descending list. */
  lemma {:induction false} InsertDescSorted(s: seq<Entry>, e: Entry)
    requires SortedDesc(s)
    ensures SortedDesc(InsertDesc(s, e))
    decreases |s|
  {
    if |s| > 0 && s[|s| - 1].score < e.score {
      var init, last := s[..|s| - 1], s[|s| - 1];
      InsertDescSorted(init, e);
      InsertDescAbove(init, e, last.score);
    }
  }

  /** Inserting `e` appends it to the entries of its own score and leaves the other
      scores' entries as they were. */
  lemma {:induction false} InsertDescStable(s: seq<Entry>, e: Entry, v: int)
    ensures WithScore(InsertDesc(s, e), v) == WithScore(s, v) + (if e.score == v then [e] else [])
    decreases |s|
  {
    var r := InsertDesc(s, e);
    if |s| == 0 || s[|s| - 1].score >= e.score {
      assert r[..|r| - 1] == s;
    } else {
      var init, last := s[..|s| - 1], s[|s| - 1];
      InsertDescStable(init, e, v);
      var t := InsertDesc(init, e);
      assert r[..|r| - 1] == t;
    }
  }

  /** The sort orders by score, highest first. */
  lemma {:induction false} SortDescSorted(es: seq<Entry>)
    ensures SortedDesc(SortDesc(es))
    decreases |es|
  {
    if |es| > 0 {
      SortDescSorted(es[..|es| - 1]);
      InsertDescSorted(SortDesc(es[..|es| - 1]), es[|es| - 1]);
    }
  }

  /** The sort loses and adds nothing. */
  lemma {:induction false} SortDescPermutes(es: seq<Entry>)
    ensures multiset(SortDesc(es)) == multiset(es)
    decreases |es|
  {
    if |es| > 0 {
      var init, last := es[..|es| - 1], es[|es| - 1];
      SortDescPermutes(init);
      InsertDescKeeps(SortDesc(init), last);
      assert es == init + [last];
    }
  }

  /** The sort keeps the entries of each score in their original order. */
  lemma {:induction false} SortDescStable(es: seq<Entry>, v: int)
    ensures WithScore(SortDesc(es), v) == WithScore(es, v)
    decreases |es|
  {
    if |es| > 0 {
      var init, last := es[..|es| - 1], es[|es| - 1];
      SortDescStable(init, v);
      InsertDescStable(SortDesc(init), last, v);
    }
  }

  /** The top-three cut `[:3]`. */
  function Top3(es: seq<Entry>): (top: seq<Entry>) {
    if |es| < 3 then es else es[..3]
  }

  /** The test of `update_high_scores` (game.py:86): a new high score when the table
      has fewer than three entries or the score beats the lowest. */
  predicate IsNewHigh(old_scores: seq<Entry>, score: int) {
    |old_scores| < 3 || score > MinScore(old_scores)
  }

  /** The list `update_high_scores` returns on a new high (game.py:91-92). */
  function Merged(old_scores: seq<Entry>, initials: string, score: int): (merged: seq<Entry>) {
    Top3(SortDesc(old_scores + [Entry(initials, score)]))
  }

  /** What `update_high_scores` answers and writes for the stored text `file`: the
      new list, whether the score is a new high, and the text written back. */
  function Updated(file: Option<string>, score: int, initials: string): (seq<Entry>, bool, Option<string>) {
    var old_scores := Loaded(file);
    if IsNewHigh(old_scores, score) then
      var scores := Merged(old_scores, initials, score);
      (scores, true, Some(Serialised(scores)))
    else (old_scores, false, None)
  }

  /** `update_high_scores(current_score)` (game.py:70-96), with the file's text as
      `file`, the player's answer to the initials prompt as `initials`, and the text
      written back to the file as `written` (`None`: nothing is written). */
  method UpdateHighScores(file: Option<string>, score: int, initials: string)
    returns (scores: seq<Entry>, isNewHigh: bool, written: Option<string>)
    ensures isNewHigh == IsNewHigh(Loaded(file), score)
    ensures scores == if isNewHigh then Merged(Loaded(file), initials, score) else Loaded(file)
    ensures written == if isNewHigh then Some(Serialised(scores)) else None
    ensures (scores, isNewHigh, written) == Updated(file, score, initials)
  {
    var oldScores := Load(file);
    isNewHigh := false;
    if |oldScores| < 3 || score > MinScore(oldScores) {
      isNewHigh := true;
    }
    if isNewHigh {
      scores := Top3(SortDesc(oldScores + [Entry(initials, score)]));
      var text := Save(scores);
      written := Some(text);
    } else {
      scores := oldScores;
      written := None;
    }
  }

  /** The merged list holds at most three entries, highest score first, all drawn
      from the old list and the new entry, and every entry left out scores no more
      than any entry kept. */
  lemma {:induction false} MergedIsTopThree(old_scores: seq<Entry>, initials: string, score: int)
    ensures var r := Merged(old_scores, initials, score);
      |r| <= 3 && SortedDesc(r) &&
      multiset(r) <= multiset(old_scores) + multiset{Entry(initials, score)} &&
      |r| == if |old_scores| + 1 < 3 then |old_scores| + 1 else 3
    ensures var all := SortDesc(old_scores + [Entry(initials, score)]);
      var r := Merged(old_scores, initials, score);
      forall i, j :: 0 <= i < |r| <= j < |all| ==> all[j].score <= r[i].score
  {
    var all := SortDesc(old_scores + [Entry(initials, score)]);
    SortDescSorted(old_scores + [Entry(initials, score)]);
    SortDescPermutes(old_scores + [Entry(initials, score)]);
    var r := Top3(all);
    assert all == r + all[|r|..];
    assert multiset(all) == multiset(r) + multiset(all[|r|..]);
  }

  /** With at most three stored entries, a new high score is always in the merged
      list. */
  lemma {:induction false} NewHighIsKept(old_scores: seq<Entry>, initials: string, score: int)
    requires |old_scores| <= 3 && IsNewHigh(old_scores, score)
    ensures Entry(initials, score) in Merged(old_scores, initials, score)
  {
    var e := Entry(initials, score);
    var all := SortDesc(old_scores + [e]);
    SortDescPermutes(old_scores + [e]);
    assert e in all by { assert e in multiset(old_scores + [e]); }
    if |all| > 3 {
      // The lowest stored entry scores less than `e`, so it sorts after `e`, and it
      // is at most fourth: `e` is among the first three.
      SortDescSorted(old_scores + [e]);
      MinScoreIsLowest(old_scores);
      var i :| 0 <= i < |old_scores| && old_scores[i].score == MinScore(old_scores);
      assert old_scores[i] in all by { assert old_scores[i] in multiset(old_scores + [e]); }
      AboveLowestInFirstThree(all, e, old_scores[i]);
    }
  }

  /** In four entries sorted highest first, an entry scoring more than another is
      among the first three. */
  lemma AboveLowestInFirstThree(all: seq<Entry>, e: Entry, lowest: Entry)
    requires |all| == 4 && SortedDesc(all)
    requires e in all && lowest in all && lowest.score < e.score
    ensures e in all[..3]
  {
    var p :| 0 <= p < |all| && all[p] == e;
    var j :| 0 <= j < |all| && all[j] == lowest;
    assert p < j;
    assert all[..3][p] == e;
  }

  /** Sorting a list that is already in descending order leaves it as it is. */
  lemma {:induction false} SortDescOfSorted(es: seq<Entry>)
    requires SortedDesc(es)
    ensures SortDesc(es) == es
    decreases |es|
  {
    if |es| > 0 {
      var init, last := es[..|es| - 1], es[|es| - 1];
      assert SortedDesc(init) by {
        forall i, j | 0 <= i < j < |init| ensures init[i].score >= init[j].score {
          assert init[i] == es[i] && init[j] == es[j];
        }
      }
      SortDescOfSorted(init);
      if |init| > 0 {
        assert init[|init| - 1] == es[|es| - 2];
      }
      assert InsertDesc(init, last) == init + [last];
      assert es == init + [last];
    }
  }

  /** A stored file with more than three entries (written by hand: the game itself
      writes at most three) can have a score reported as a new high that the merged
      list then drops. */
  lemma NewHighDroppedFromLongFile()
    ensures var old_scores := [Entry("AAA", 40), Entry("BBB", 30), Entry("CCC", 20), Entry("DDD", 10)];
      IsNewHigh(old_scores, 15) && Entry("EEE", 15) !in Merged(old_scores, "EEE", 15)
  {
    var old_scores := [Entry("AAA", 40), Entry("BBB", 30), Entry("CCC", 20), Entry("DDD", 10)];
    var e := Entry("EEE", 15);
    var top := old_scores[..3];
    assert top == [Entry("AAA", 40), Entry("BBB", 30), Entry("CCC", 20)];
    assert MinScore(old_scores) == 10 by {
      var one, two := old_scores[..1], old_scores[..2];
      assert two[..1] == one && top[..2] == two;
      assert MinScore(one) == 40;
      assert MinScore(two) == 30;
      assert MinScore(top) == 20;
    }
    var sorted := SortDesc(old_scores + [e]);
    assert sorted == top + [e, Entry("DDD", 10)] by {
      var all := old_scores + [e];
      assert all[..|all| - 1] == old_scores;
      SortDescOfSorted(old_scores);
      assert InsertDesc(top, e) == top + [e];
    }
    assert Merged(old_scores, "EEE", 15) == top;
  }
}
