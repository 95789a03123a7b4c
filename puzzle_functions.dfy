/** The scoring logic of the "Where's That Word?" word-search game: grid
    access on the puzzle text, the string helpers, the direction factor, the
    points rule, the guess checker and the two outcome helpers. */
module PuzzleFunctions {
  import opened StrOps

  // The four recognised directions.
  const UP := "up"
  const DOWN := "down"
  const FORWARD := "forward"
  const BACKWARD := "backward"

  // The multiplier for finding a word in each direction.
  const FORWARD_FACTOR := 1
  const DOWN_FACTOR := 2
  const BACKWARD_FACTOR := 3
  const UP_FACTOR := 4

  // The word count separating the scoring regimes, and the last-word bonus.
  const THRESHOLD := 5
  const BONUS := 12

  // The player labels and the game outcomes.
  const P1 := "player one"
  const P2 := "player two"
  const P1_WINS := "player one wins"
  const P2_WINS := "player two wins"
  const TIE := "tie game"

  const DIRECTIONS: set<string> := {UP, DOWN, FORWARD, BACKWARD}

  // ---------------------------------------------------------------------------
  // The puzzle as text

  /** The rows `get_column` walks over: the puzzle stripped, then split at
      line breaks. */
  function Lines(puzzle: string): seq<string> {
    Split(Strip(puzzle))
  }

  /** A well-formed grid: at least one row, all rows of the same non-zero
      length, and no whitespace inside any row. */
  ghost predicate IsGrid(rows: seq<string>) {
    && |rows| >= 1
    && |rows[0]| >= 1
    && (forall k :: 0 <= k < |rows| ==> |rows[k]| == |rows[0]|)
    && (forall k, i :: 0 <= k < |rows| && 0 <= i < |rows[k]| ==> !IsSpace(rows[k][i]))
  }

  /** The puzzle text of a grid: every row followed by a line break. */
  ghost function Render(rows: seq<string>): string {
    if rows == [] then "" else rows[0] + [NEWLINE] + Render(rows[1..])
  }

  /** Whether column `colNum` exists in every row that `get_column` visits
      (otherwise Python raises IndexError). */
  predicate ColumnInRange(puzzle: string, colNum: int) {
    && 0 <= colNum
    && forall k :: 0 <= k < |Lines(puzzle)| ==> colNum < |Lines(puzzle)[k]|
  }

  /** Character `colNum` of each of the given rows, in row order. */
  ghost function Column(rows: seq<string>, colNum: nat): string
    requires forall k :: 0 <= k < |rows| ==> colNum < |rows[k]|
  {
    seq(|rows|, k requires 0 <= k < |rows| => rows[k][colNum])
  }

  // ---------------------------------------------------------------------------
  // Grid access

  /** `get_column`: one character per row, the character at `colNum`. */
  method GetColumn(puzzle: string, colNum: int) returns (column: string)
    requires ColumnInRange(puzzle, colNum)
    ensures |column| == |Lines(puzzle)|
    ensures forall k :: 0 <= k < |column| ==> column[k] == Lines(puzzle)[k][colNum]
  {
    var puzzleList := Lines(puzzle);
    column := "";
    for i := 0 to |puzzleList|
      invariant |column| == i
      invariant forall k :: 0 <= k < i ==> column[k] == puzzleList[k][colNum]
    {
      column := column + [puzzleList[i][colNum]];
    }
  }

  /** `get_row_length`: the length of the text before the first line break. */
  function GetRowLength(puzzle: string): (n: nat)
    ensures n <= |puzzle|
    ensures forall i :: 0 <= i < n ==> puzzle[i] != NEWLINE
    ensures n < |puzzle| ==> puzzle[n] == NEWLINE
  {
    var pieces := Split(puzzle);
    assert puzzle[..|pieces[0]|] == pieces[0] by {
      if |pieces| > 1 {
        assert puzzle == pieces[0] + ([NEWLINE] + Join(pieces[1..]));
      }
    }
    |pieces[0]|
  }

  /** `get_row`: the `row length` characters that start at offset
      `(row length + 1) * rowNum`, clamped to the end of the puzzle. */
  function GetRow(puzzle: string, rowNum: int): (row: string)
    requires 0 <= rowNum
    ensures |row| <= GetRowLength(puzzle)
    ensures |row| > 0 ==> (GetRowLength(puzzle) + 1) * rowNum + |row| <= |puzzle|
    ensures forall i :: 0 <= i < |row| ==>
      row[i] == puzzle[(GetRowLength(puzzle) + 1) * rowNum + i]
    ensures (GetRowLength(puzzle) + 1) * rowNum + GetRowLength(puzzle) <= |puzzle| ==>
      |row| == GetRowLength(puzzle)
    ensures |row| == if (GetRowLength(puzzle) + 1) * rowNum < |puzzle|
      then Min(GetRowLength(puzzle), |puzzle| - (GetRowLength(puzzle) + 1) * rowNum)
      else 0
  {
    var rowValue := (GetRowLength(puzzle) + 1) * rowNum;
    Slice(puzzle, rowValue, rowValue + GetRowLength(puzzle))
  }

  // ---------------------------------------------------------------------------
  // String helpers

  /** Whether `text2` occurs in `text1` at offset `i`. */
  ghost predicate OccursAt(text1: string, text2: string, i: int) {
    0 <= i && i + |text2| <= |text1| && text1[i..i + |text2|] == text2
  }

  /** `contains`: `text2 in text1`, the contiguous substring test. */
  function Contains(text1: string, text2: string): (found: bool)
    ensures found <==> exists i :: OccursAt(text1, text2, i)
    decreases |text1|
  {
    if |text2| > |text1| then
      false
    else if text1[..|text2|] == text2 then
      assert OccursAt(text1, text2, 0);
      true
    else
      assert !OccursAt(text1, text2, 0);
      forall i | 0 <= i
        ensures OccursAt(text1[1..], text2, i) <==> OccursAt(text1, text2, i + 1)
      {
        if i + |text2| <= |text1[1..]| {
          assert text1[1..][i..i + |text2|] == text1[i + 1..i + 1 + |text2|];
        }
      }
      assert (exists i :: OccursAt(text1, text2, i)) ==> exists i :: OccursAt(text1[1..], text2, i) by {
        if i :| OccursAt(text1, text2, i) {
          assert OccursAt(text1[1..], text2, i - 1);
        }
      }
      Contains(text1[1..], text2)
  }

  /** `reverse`: `rvrs[::-1]`. */
  function Reverse(rvrs: string): (r: string)
    ensures |r| == |rvrs|
    ensures forall i :: 0 <= i < |rvrs| ==> r[i] == rvrs[|rvrs| - 1 - i]
  {
    if rvrs == [] then [] else Reverse(rvrs[1..]) + [rvrs[0]]
  }

  // ---------------------------------------------------------------------------
  // Scoring

  /** `get_factor`: 4, 2 and 1 for up, down and forward; anything else,
      backward included, gets the backward factor 3. */
  function GetFactor(direction: string): (f: int)
    ensures 1 <= f <= 4
    ensures f == UP_FACTOR <==> direction == UP
    ensures f == DOWN_FACTOR <==> direction == DOWN
    ensures f == FORWARD_FACTOR <==> direction == FORWARD
    ensures f == BACKWARD_FACTOR <==> direction !in {UP, DOWN, FORWARD}
  {
    if direction == UP then UP_FACTOR
    else if direction == DOWN then DOWN_FACTOR
    else if direction == FORWARD then FORWARD_FACTOR
    else BACKWARD_FACTOR
  }

  /** `get_points`: the three scoring regimes. The docstring asks for
      `numWordsLeft > 0`; the code itself is total, and every count below 2
      falls into the last-word branch. */
  function GetPoints(direction: string, numWordsLeft: int): (points: int)
    ensures THRESHOLD * GetFactor(direction) <= points
    ensures points <= (2 * THRESHOLD - 1) * GetFactor(direction) + BONUS
  {
    if numWordsLeft >= THRESHOLD then
      GetFactor(direction) * THRESHOLD
    else if 1 < numWordsLeft < THRESHOLD then
      ((2 * THRESHOLD) - numWordsLeft) * GetFactor(direction)
    else
      (2 * THRESHOLD - 1) * GetFactor(direction) + BONUS
  }

  /** The line a guess is searched in: the row or column `rowColNum`, reversed
      for backward and up, and empty for an unrecognised direction. */
  ghost function OrientedLine(puzzle: string, direction: string, rowColNum: int): string
    requires GuessInRange(puzzle, direction, rowColNum)
  {
    if direction == FORWARD then GetRow(puzzle, rowColNum)
    else if direction == BACKWARD then Reverse(GetRow(puzzle, rowColNum))
    else if direction == DOWN then Column(Lines(puzzle), rowColNum)
    else if direction == UP then Reverse(Column(Lines(puzzle), rowColNum))
    else ""
  }

  /** What `check_guess` needs of its index to run without an IndexError:
      a non-negative row for the row directions, an existing column for the
      column directions, and nothing for an unrecognised direction. */
  predicate GuessInRange(puzzle: string, direction: string, rowColNum: int) {
    && (direction == FORWARD || direction == BACKWARD ==> 0 <= rowColNum)
    && (direction == DOWN || direction == UP ==> ColumnInRange(puzzle, rowColNum))
  }

  /** `check_guess` as written: the line-187 assignment overwrites the score
      after the match test, so every guess scores 0. */
  method CheckGuess(puzzle: string, direction: string, guessWord: string,
                    rowColNum: int, numWordsLeft: int) returns (score: int)
    requires GuessInRange(puzzle, direction, rowColNum)
    ensures score == 0
  {
    var word: string;
    if direction == FORWARD {
      word := GetRow(puzzle, rowColNum);
    } else if direction == BACKWARD {
      word := Reverse(GetRow(puzzle, rowColNum));
    } else if direction == DOWN {
      word := GetColumn(puzzle, rowColNum);
    } else if direction == UP {
      var column := GetColumn(puzzle, rowColNum);
      word := Reverse(column);
    } else {
      word := "";
    }

    if Contains(word, guessWord) {
      score := GetPoints(direction, numWordsLeft);
    }
    score := 0;
  }

  /** `check_guess` as its docstring intends: 0 by default, overwritten with
      the points for the direction only when the guess is in the oriented
      line. */
  method CheckGuessFixed(puzzle: string, direction: string, guessWord: string,
                         rowColNum: int, numWordsLeft: int) returns (score: int)
    requires GuessInRange(puzzle, direction, rowColNum)
    ensures Contains(OrientedLine(puzzle, direction, rowColNum), guessWord) ==>
      score == GetPoints(direction, numWordsLeft)
    ensures !Contains(OrientedLine(puzzle, direction, rowColNum), guessWord) ==> score == 0
    ensures score > 0 <==> Contains(OrientedLine(puzzle, direction, rowColNum), guessWord)
  {
    var word: string;
    if direction == FORWARD {
      word := GetRow(puzzle, rowColNum);
    } else if direction == BACKWARD {
      word := Reverse(GetRow(puzzle, rowColNum));
    } else if direction == DOWN {
      word := GetColumn(puzzle, rowColNum);
      assert word == Column(Lines(puzzle), rowColNum);
    } else if direction == UP {
      var column := GetColumn(puzzle, rowColNum);
      assert column == Column(Lines(puzzle), rowColNum);
      word := Reverse(column);
    } else {
      word := "";
    }
    assert word == OrientedLine(puzzle, direction, rowColNum);

    score := 0;
    if Contains(word, guessWord) {
      score := GetPoints(direction, numWordsLeft);
    }
  }

  // ---------------------------------------------------------------------------
  // Outcome helpers

  /** `get_winner`: one of three outcomes, by comparing the two scores. */
  function GetWinner(score1: int, score2: int): (outcome: string)
    ensures outcome in {P1_WINS, P2_WINS, TIE}
    ensures outcome == P1_WINS <==> score1 > score2
    ensures outcome == P2_WINS <==> score1 < score2
    ensures outcome == TIE <==> score1 == score2
  {
    if score1 > score2 then P1_WINS
    else if score1 < score2 then P2_WINS
    else TIE
  }

  /** `get_current_player`: player one exactly on player one's turn. */
  function GetCurrentPlayer(playerOneTurn: bool): (player: string)
    ensures player in {P1, P2}
    ensures player == P1 <==> playerOneTurn
  {
    if playerOneTurn then "player one" else "player two"
  }
}
