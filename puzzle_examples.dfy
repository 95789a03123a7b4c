/** The docstring examples of the puzzle functions, proved on the model,
    and the two `check_guess` examples that the code as written does not
    meet. */
module PuzzleExamples {
  import opened StrOps
  import opened PuzzleFunctions
  import opened PuzzleProperties

  /** The three-row sample grid used throughout the docstrings. */
  const SAMPLE: string := "abcd\nefgh\nijkl\n"

  ghost const SAMPLE_ROWS: seq<string> := ["abcd", "efgh", "ijkl"]

  /** Rows made of lower-case letters hold no whitespace. */
  lemma LowerCaseRow(row: string)
    requires forall i :: 0 <= i < |row| ==> 'a' <= row[i] <= 'z'
    ensures forall i :: 0 <= i < |row| ==> !IsSpace(row[i])
  {
  }

  /** The sample rows form a well-formed 3 x 4 grid. */
  lemma SampleIsGrid()
    ensures IsGrid(SAMPLE_ROWS)
  {
    var rows := SAMPLE_ROWS;
    LowerCaseRow(rows[0]);
    LowerCaseRow(rows[1]);
    LowerCaseRow(rows[2]);
  }

  /** The sample text is the rendering of the sample rows, so its lines are
      those rows. */
  lemma SampleLines()
    ensures Render(SAMPLE_ROWS) == SAMPLE
    ensures Lines(SAMPLE) == SAMPLE_ROWS
  {
    var rows := SAMPLE_ROWS;
    assert Render(rows[2..]) == "ijkl\n";
    assert Render(rows[1..]) == "efgh\nijkl\n";
    SampleIsGrid();
    LinesOfRender(rows);
  }

  /** `get_column('abcd\nefgh\nijkl\n', 1)` is `'bfj'`. */
  method ColumnExample() returns (column: string)
    ensures column == "bfj"
  {
    SampleColumn();
    column := GetColumn(SAMPLE, 1);
  }

  /** Column 1 exists in every line of the sample text. */
  lemma SampleColumnInRange()
    ensures ColumnInRange(SAMPLE, 1)
  {
    SampleIsGrid();
    SampleLines();
    ColumnOfRender(SAMPLE_ROWS, 1);
  }

  /** Column 1 of the sample rows reads `'bfj'`. */
  lemma SampleRowsColumn()
    ensures Column(SAMPLE_ROWS, 1) == "bfj"
  {
    var column := Column(SAMPLE_ROWS, 1);
    assert column[0] == 'b' && column[1] == 'f' && column[2] == 'j';
  }

  /** Column 1 of the sample text exists and reads `'bfj'`. */
  lemma SampleColumn()
    ensures ColumnInRange(SAMPLE, 1)
    ensures Column(Lines(SAMPLE), 1) == "bfj"
  {
    SampleColumnInRange();
    SampleLines();
    SampleRowsColumn();
  }

  /** Rows 2 and 1 of the sample are `'ijkl'` and `'efgh'`; its row length
      is 4, and a row past the last one is empty. */
  lemma RowExamples()
    ensures GetRowLength(SAMPLE) == 4
    ensures GetRow(SAMPLE, 2) == "ijkl"
    ensures GetRow(SAMPLE, 1) == "efgh"
    ensures GetRow(SAMPLE, 3) == ""
  {
    SampleIsGrid();
    SampleLines();
    RowLengthOfRender(SAMPLE_ROWS);
    GetRowOfRender(SAMPLE_ROWS, 2);
    GetRowOfRender(SAMPLE_ROWS, 1);
    GetRowOfRender(SAMPLE_ROWS, 3);
  }

  /** The `contains` examples. */
  lemma ContainsExamples()
    ensures Contains("abc", "bc")
    ensures !Contains("abc", "cb")
  {
    assert OccursAt("abc", "bc", 1);
    forall i | 0 <= i <= 1
      ensures !OccursAt("abc", "cb", i)
    {
      assert "abc"[i..i + 2][0] == "abc"[i] != 'c';
    }
  }

  /** The first `reverse` example, and the reversal the upward `check_guess`
      example relies on. */
  lemma ReverseExamples()
    ensures Reverse("hi") == "ih"
    ensures Reverse("bfj") == "jfb"
  {
  }

  /** A string is the reversal of another when it has the same length and
      mirrors it character by character. */
  lemma ReverseByMirror(s: string, t: string)
    requires |t| == |s|
    requires forall i :: 0 <= i < |s| ==> t[i] == s[|s| - 1 - i]
    ensures Reverse(s) == t
  {
    var r := Reverse(s);
    assert forall i :: 0 <= i < |s| ==> r[i] == t[i];
  }

  /** The second `reverse` example: `'player one'` reverses to
      `'eno reyalp'`. */
  lemma ReversePlayerOne()
    ensures Reverse("player one") == "eno reyalp"
  {
    var s, t := "player one", "eno reyalp";
    forall i | 0 <= i < 10
      ensures t[i] == s[9 - i]
    {
    }
    ReverseByMirror(s, t);
  }

  /** The `get_factor`, `get_points`, `get_winner` and `get_current_player`
      examples. */
  lemma ScoringExamples()
    ensures GetFactor("up") == 4 && GetFactor("down") == 2
    ensures GetPoints("up", 2) == 32
    ensures GetPoints("down", 7) == 10
    ensures GetPoints("forward", 1) == 21
    ensures GetWinner(1, 2) == "player two wins"
    ensures GetWinner(2, 1) == "player one wins"
    ensures GetWinner(1, 1) == "tie game"
    ensures GetCurrentPlayer(true) == "player one"
    ensures GetCurrentPlayer(false) == "player two"
  {
  }

  /** The line the forward `check_guess` example searches: row 1. */
  lemma SampleForwardLine()
    ensures GuessInRange(SAMPLE, FORWARD, 1)
    ensures OrientedLine(SAMPLE, FORWARD, 1) == "efgh"
    ensures Contains(OrientedLine(SAMPLE, FORWARD, 1), "ef")
  {
    RowExamples();
    ForwardGuessInRow();
  }

  /** The forward guess `'ef'` occurs in row 1, `'efgh'`. */
  lemma ForwardGuessInRow()
    ensures Contains("efgh", "ef")
  {
    assert OccursAt("efgh", "ef", 0);
  }

  /** The line the upward `check_guess` example searches: column 1, read
      from the bottom. */
  lemma SampleUpLine()
    ensures GuessInRange(SAMPLE, UP, 1)
    ensures OrientedLine(SAMPLE, UP, 1) == "jfb"
    ensures Contains(OrientedLine(SAMPLE, UP, 1), "jfb")
  {
    SampleColumn();
    ReverseExamples();
    UpGuessInColumn();
  }

  /** The upward guess `'jfb'` occurs in column 1 read from the bottom. */
  lemma UpGuessInColumn()
    ensures Contains("jfb", "jfb")
  {
    assert OccursAt("jfb", "jfb", 0);
  }

  /** `check_guess('abcd\nefgh\nijkl\n', 'forward', 'ef', 1, 4)`: 0 as
      written, 6 as intended. */
  method CheckGuessForwardExample() returns (asWritten: int, intended: int)
    ensures asWritten == 0 && intended == 6
  {
    SampleForwardLine();
    asWritten := CheckGuess(SAMPLE, FORWARD, "ef", 1, 4);
    intended := CheckGuessFixed(SAMPLE, FORWARD, "ef", 1, 4);
  }

  /** `check_guess('abcd\nefgh\nijkl\n', 'up', 'jfb', 1, 1)`: 0 as
      written, 48 as intended. */
  method CheckGuessUpExample() returns (asWritten: int, intended: int)
    ensures asWritten == 0 && intended == 48
  {
    SampleUpLine();
    asWritten := CheckGuess(SAMPLE, UP, "jfb", 1, 1);
    intended := CheckGuessFixed(SAMPLE, UP, "jfb", 1, 1);
  }
}
