# Where's That Word? — scoring logic in Dafny

A model of `puzzle_functions.py`, the scoring library of the "Where's That
Word?" word-search game. A puzzle is text: rows of letters, each followed by a
line break. A player guesses a word, a direction (forward, backward, down, up)
and a row or column number. The library finds the line of the grid that the
direction names, reverses it for backward and up, tests whether the guess
occurs in it, and scores the guess by the direction's factor and the number
of words still to find. Two small helpers name the current player and the
winner.

Files:

- `str_ops.dfy` (module `StrOps`): the Python string built-ins the library
  relies on. These are `str.isspace`, `strip()`, `split('\n')` and slicing
  with clamped non-negative bounds. `Join` models `'\n'.join`, which the
  library does not call: it is the reference definition `Split` is specified
  against.
- `puzzle_functions.dfy` (module `PuzzleFunctions`): every function and
  constant of the source file. `get_column` and `check_guess` are methods with
  the source's loop and assignments. The other functions are Dafny functions.
- `puzzle_properties.dfy` (module `PuzzleProperties`): lemmas about the model.
  A well-formed grid is `IsGrid(rows)`: at least one row, all rows of one
  non-zero length, no whitespace. Its text is `Render(rows)`.
- `puzzle_examples.dfy` (module `PuzzleExamples`): the docstring examples,
  proved on the model.

Where the docstrings and the code differ, the model follows the code:

- `get_points` is total in the code. Any count below 2 (zero and negatives
  too) falls into the last-word branch. The docstring's `num_words_left > 0`
  is therefore not a precondition of `GetPoints`.
- `check_guess` as written always returns 0 (see Findings). The model proves
  that, and models the intended behaviour separately.
- `get_row_length` splits the unstripped text. A puzzle that starts with a
  line break has row length 0 there, while `get_column` strips first.
  `GetRowLength` and `Lines` keep that difference.

## Model

| member | source | states |
|---|---|---|
| StrOps.StripRight | puzzle_functions.py:48 | the trailing part of `strip()`: a prefix of the text, all of the removed part whitespace, and the kept part does not end in whitespace |
| StrOps.StripLeft | puzzle_functions.py:48 | the leading part of `strip()`: a suffix of the text, all of the removed part whitespace, and the kept part does not start in whitespace |
| StrOps.Split | puzzle_functions.py:48 | `split('\n')` gives at least one piece, no piece holds a line break, and joining the pieces with line breaks gives back the text |
| StrOps.SplitJoin | puzzle_functions.py:48 | splitting the line-break join of newline-free pieces gives back exactly those pieces |
| StrOps.Slice | puzzle_functions.py:118 | a Python slice with non-negative bounds: its length is clamped to the end of the text, and character i is character lo+i of the text |
| PuzzleFunctions.GetColumn | puzzle_functions.py:39-53 | one character per stripped-and-split row, and character k is character `colNum` of row k |
| PuzzleFunctions.GetRowLength | puzzle_functions.py:56-60 | the result is the offset of the first line break, or the whole length when there is none: no line break before it, and a line break at it when it is inside the text |
| PuzzleFunctions.GetRow | puzzle_functions.py:104-118 | the characters read from offset `(row length + 1) * rowNum`, as many as the row length or as the rest of the text holds, whichever is fewer, and none past the end of the text |
| PuzzleFunctions.Contains | puzzle_functions.py:63-72 | true iff `text2` occurs as a contiguous piece of `text1` at some offset |
| PuzzleFunctions.Reverse | puzzle_functions.py:93-102 | same length, and character i of the result is character `n-1-i` of the input |
| PuzzleFunctions.GetFactor | puzzle_functions.py:121-140 | the factor is in 1..4; it is 4, 2, 1 exactly for up, down, forward; it is 3 exactly for every other string, backward included |
| PuzzleFunctions.GetPoints | puzzle_functions.py:142-161 | every score lies between `THRESHOLD * factor` and `(2*THRESHOLD-1) * factor + BONUS`, so it is always positive |
| PuzzleFunctions.CheckGuess | puzzle_functions.py:163-189 | as written, the score is 0 for every input, found or not, because line 187 overwrites it |
| PuzzleFunctions.CheckGuessFixed | puzzle_functions.py:163-189 | as intended: the direction's points if the guess occurs in the oriented line, 0 otherwise; the score is positive iff the guess is found |
| PuzzleFunctions.GetWinner | puzzle_functions.py:74-91 | one of the three outcomes: player one wins iff score1 > score2, player two wins iff score1 < score2, tie iff equal |
| PuzzleFunctions.GetCurrentPlayer | puzzle_functions.py:191-203 | `'player one'` iff it is player one's turn, otherwise `'player two'` |
| PuzzleProperties.LinesOfRender | puzzle_functions.py:48 | stripping and splitting a well-formed grid's text gives back exactly its rows |
| PuzzleProperties.RowLengthOfRender | puzzle_functions.py:56-60 | the row length of a well-formed grid's text is the grid's row length |
| PuzzleProperties.GetRowOfRender | puzzle_functions.py:116-118 | the offset arithmetic finds row r exactly for every existing row; a row number past the last row gives the empty string |
| PuzzleProperties.ColumnOfRender | puzzle_functions.py:49-51 | on a well-formed grid every column index below the row length is in range, and the column holds character c of every row, in row order |
| PuzzleProperties.RowColumnAgree | puzzle_functions.py:39-118 | character c of row r equals character r of column c: rows and columns read the same grid |
| PuzzleProperties.ReverseInvolution | puzzle_functions.py:93-102 | reversing twice gives back the original string |
| PuzzleProperties.ContainsEmpty | puzzle_functions.py:63-72 | the empty word occurs in every line, and only the empty word occurs in the empty line |
| PuzzleProperties.MirroredOccurrence | puzzle_functions.py:176-181 | for any two strings that mirror a line and a word character by character, an occurrence of the word at offset i gives an occurrence of the mirrored word at the mirrored offset |
| PuzzleProperties.OccursAtReverse | puzzle_functions.py:176-181 | an occurrence of a word at offset i is an occurrence of the reversed word in the reversed line at the mirrored offset |
| PuzzleProperties.ContainsReverse | puzzle_functions.py:176-181 | a reversed word occurs in a reversed line iff the word occurs in the line |
| PuzzleProperties.FactorBijection | puzzle_functions.py:5-15 | the four directions get four different factors, exactly 1..4; an unrecognised direction gets the backward factor |
| PuzzleProperties.PointsNonIncreasing | puzzle_functions.py:156-159 | with two or more words left, more words left never scores more |
| PuzzleProperties.LastWordBonus | puzzle_functions.py:160-161 | the last word scores strictly more than any count of two or more |
| PuzzleProperties.PointsOrderedByFactor | puzzle_functions.py:142-161 | for the same count, a direction with a larger factor scores strictly more |
| PuzzleProperties.OrientedRowOfGrid | puzzle_functions.py:174-177 | on a well-formed grid, forward searches exactly row i and backward its reverse |
| PuzzleProperties.OrientedColumnOfGrid | puzzle_functions.py:178-181 | on a well-formed grid, down searches column i from the top and up searches it from the bottom, one character per row |
| PuzzleProperties.UnknownDirectionLine | puzzle_functions.py:182-183 | an unrecognised direction searches the empty line, so only the empty guess is found |
| PuzzleProperties.WinnerSwap | puzzle_functions.py:86-91 | swapping the scores swaps the two win outcomes and keeps a tie; equal scores tie |
| PuzzleExamples.SampleIsGrid | puzzle_functions.py:44 | the three rows of the docstring sample form a well-formed 3 x 4 grid |
| PuzzleExamples.SampleLines | puzzle_functions.py:44 | the sample text `'abcd\nefgh\nijkl\n'` renders those rows, and stripping and splitting it gives them back |
| PuzzleExamples.ColumnExample | puzzle_functions.py:44-45 | column 1 of the sample is `'bfj'` |
| PuzzleExamples.RowExamples | puzzle_functions.py:110-113 | rows 2 and 1 of the sample are `'ijkl'` and `'efgh'`, its row length is 4, and row 3 is empty |
| PuzzleExamples.ContainsExamples | puzzle_functions.py:66-69 | `'bc'` occurs in `'abc'` and `'cb'` does not |
| PuzzleExamples.SampleColumnInRange | puzzle_functions.py:44-45 | column 1 exists in every line of the sample, so the docstring call raises no IndexError |
| PuzzleExamples.SampleRowsColumn | puzzle_functions.py:44-45 | character 1 of the sample rows, in row order, spells `'bfj'` |
| PuzzleExamples.SampleColumn | puzzle_functions.py:44-45 | column 1 of the sample exists in every row and reads `'bfj'` |
| PuzzleExamples.ReverseExamples | puzzle_functions.py:96-97 | `'hi'` reverses to `'ih'`, and `'bfj'` to `'jfb'` |
| PuzzleExamples.ReverseByMirror | puzzle_functions.py:93-102 | a string of the same length that mirrors another character by character is its reversal |
| PuzzleExamples.ReversePlayerOne | puzzle_functions.py:98-99 | `'player one'` reverses to `'eno reyalp'` |
| PuzzleExamples.ScoringExamples | puzzle_functions.py:127-153 | the factor, points, winner and player examples: 4, 2, 32, 10, 21 and the outcome labels |
| PuzzleExamples.SampleForwardLine | puzzle_functions.py:174-175 | the forward `check_guess` example searches row 1, `'efgh'`, which contains `'ef'` |
| PuzzleExamples.SampleUpLine | puzzle_functions.py:180-181 | the upward `check_guess` example searches column 1 read from the bottom, `'jfb'`, which contains the guess |
| PuzzleExamples.ForwardGuessInRow | puzzle_functions.py:168-169 | the forward guess `'ef'` occurs in row 1, `'efgh'` |
| PuzzleExamples.UpGuessInColumn | puzzle_functions.py:170-171 | the upward guess `'jfb'` occurs in column 1 read from the bottom |
| PuzzleExamples.CheckGuessForwardExample | puzzle_functions.py:168-169 | guessing `'ef'` forward in row 1 with 4 words left scores 0 as written and 6 as intended |
| PuzzleExamples.CheckGuessUpExample | puzzle_functions.py:170-171 | guessing `'jfb'` up in column 1 with 1 word left scores 0 as written and 48 as intended |

## Left out

- `PUZZLE_FILE` and loading the puzzle text from a file: file I/O is done outside this file.
- Negative row and column numbers: Python counts them from the end. `GetRow` and `GetColumn` require non-negative numbers, as the docstrings do.
- The `IndexError` that `get_column` raises for a column past the end of some row: `GetColumn` has this as a precondition (`ColumnInRange`).
- Any game loop, turn alternation or session state: none of it is in this file.
- Python strings are sequences of code points; the model uses Dafny's Unicode scalar values, which leave out lone surrogates.

## Findings

| source | as written | input that shows it | evidently intended | confidence | as-written member | corrected member |
|---|---|---|---|---|---|---|
| puzzle_functions.py:185-187 | `score = 0` runs after the match test on every path, so the function always returns 0 | `check_guess('abcd\nefgh\nijkl\n', 'forward', 'ef', 1, 4)` gives 0; the docstring expects 6 (and 48 for `'up', 'jfb', 1, 1`) | start from 0 and set the direction's points only when the guess is found | not executed; proved on the model | PuzzleFunctions.CheckGuess, PuzzleExamples.CheckGuessForwardExample | PuzzleFunctions.CheckGuessFixed |
