/** What the puzzle functions guarantee: on a well-formed grid the row and
    column accessors return exactly its rows and columns; reversal is an
    involution that carries substring matches along; the points rule is
    bounded, non-increasing and rewards the last word; the outcome helpers
    are consistent under swapping. */
module PuzzleProperties {
  import opened StrOps
  import opened PuzzleFunctions

  // ---------------------------------------------------------------------------
  // Rendering a grid as text

  /** The rendered grid is the rows joined by line breaks, plus one more. */
  lemma {:induction false} RenderJoin(rows: seq<string>)
    requires |rows| >= 1
    ensures Render(rows) == Join(rows) + [NEWLINE]
    decreases |rows|
  {
    if |rows| > 1 {
      RenderJoin(rows[1..]);
    } else {
      assert rows[1..] == [];
    }
  }

  /** The joined rows start with the first row's first character and end with
      the last row's last character. */
  lemma {:induction false} JoinEnds(rows: seq<string>)
    requires |rows| >= 1
    requires forall k :: 0 <= k < |rows| ==> |rows[k]| >= 1
    ensures |Join(rows)| >= 1
    ensures Join(rows)[0] == rows[0][0]
    ensures Join(rows)[|Join(rows)| - 1] == rows[|rows| - 1][|rows[|rows| - 1]| - 1]
    decreases |rows|
  {
    if |rows| > 1 {
      var tail := rows[1..];
      JoinEnds(tail);
      assert tail[|tail| - 1] == rows[|rows| - 1];
    }
  }

  /** Stripping and splitting the rendered grid gives back its rows: the
      rows `get_column` walks over are exactly the grid's rows. */
  lemma LinesOfRender(rows: seq<string>)
    requires IsGrid(rows)
    ensures Lines(Render(rows)) == rows
  {
    var joined := Join(rows);
    RenderJoin(rows);
    forall k | 0 <= k < |rows|
      ensures |rows[k]| >= 1
    {
      assert |rows[k]| == |rows[0]|;
    }
    JoinEnds(rows);
    var last := rows[|rows| - 1];
    assert !IsSpace(last[|last| - 1]);
    assert !IsSpace(rows[0][0]);
    assert StripRight(joined + [NEWLINE]) == joined by {
      var s := joined + [NEWLINE];
      assert IsSpace(s[|s| - 1]);
      assert s[..|s| - 1] == joined;
    }
    assert StripLeft(joined) == joined;
    forall k | 0 <= k < |rows|
      ensures NEWLINE !in rows[k]
    {
      forall i | 0 <= i < |rows[k]|
        ensures rows[k][i] != NEWLINE
      {
        assert !IsSpace(rows[k][i]);
      }
    }
    SplitJoin(rows);
  }

  /** Row `k` of a grid with rows of length `width` starts at offset
      `k * (width + 1)`, and its line break follows `width` characters on. */
  lemma {:induction false} RenderAt(rows: seq<string>, width: nat, k: nat, i: nat)
    requires forall j :: 0 <= j < |rows| ==> |rows[j]| == width
    requires k < |rows| && i <= width
    ensures (width + 1) * k + i < |Render(rows)|
    ensures Render(rows)[(width + 1) * k + i] == if i < width then rows[k][i] else NEWLINE
    decreases k
  {
    var head := rows[0] + [NEWLINE];
    assert Render(rows) == head + Render(rows[1..]);
    assert |head| == width + 1;
    if k == 0 {
      assert Render(rows)[i] == head[i];
    } else {
      RenderAt(rows[1..], width, k - 1, i);
      var p := (width + 1) * (k - 1) + i;
      assert (width + 1) * k + i == |head| + p;
      assert Render(rows)[|head| + p] == Render(rows[1..])[p];
    }
  }

  /** A grid of `n` rows of length `width` renders to `n * (width + 1)`
      characters. */
  lemma {:induction false} RenderLength(rows: seq<string>, width: nat)
    requires forall j :: 0 <= j < |rows| ==> |rows[j]| == width
    ensures |Render(rows)| == |rows| * (width + 1)
    decreases |rows|
  {
    if rows != [] {
      RenderLength(rows[1..], width);
      assert |rows| * (width + 1) == (|rows| - 1) * (width + 1) + (width + 1);
    }
  }

  /** Row `r` of `n` rows of length `width` ends inside the rendered text
      exactly when `r < n`. */
  lemma RowOffsetBounds(width: nat, r: nat, n: nat)
    ensures r < n ==> (width + 1) * r + width + 1 <= n * (width + 1)
    ensures r >= n ==> (width + 1) * r >= n * (width + 1)
  {
    if r < n {
      assert n * (width + 1) == (width + 1) * r + (width + 1) + (n - r - 1) * (width + 1);
    } else {
      assert (width + 1) * r == n * (width + 1) + (r - n) * (width + 1);
    }
  }

  /** `get_row_length` of a rendered grid is the grid's row length. */
  lemma RowLengthOfRender(rows: seq<string>)
    requires IsGrid(rows)
    ensures GetRowLength(Render(rows)) == |rows[0]|
  {
    var puzzle, width := Render(rows), |rows[0]|;
    var n := GetRowLength(puzzle);
    RenderAt(rows, width, 0, width);
    if n < width {
      RenderAt(rows, width, 0, n);
      assert IsSpace(NEWLINE);
    }
  }

  /** `get_row` reads `width` characters from offset `(width + 1) * r` when
      they lie inside the puzzle, and nothing when the offset is past its
      end. */
  lemma GetRowSlice(puzzle: string, r: nat, width: nat)
    requires GetRowLength(puzzle) == width
    ensures (width + 1) * r + width <= |puzzle| ==>
      |GetRow(puzzle, r)| == width &&
      forall i :: 0 <= i < width ==> GetRow(puzzle, r)[i] == puzzle[(width + 1) * r + i]
    ensures (width + 1) * r >= |puzzle| ==> GetRow(puzzle, r) == ""
  {
  }

  /** `get_row` on a rendered grid: exactly row `r` for an existing row, the
      empty string past the last row (the slice is clamped). */
  lemma GetRowOfRender(rows: seq<string>, r: int)
    requires IsGrid(rows) && 0 <= r
    ensures GetRow(Render(rows), r) == if r < |rows| then rows[r] else ""
  {
    var width := |rows[0]|;
    RowLengthOfRender(rows);
    RenderLength(rows, width);
    RowOffsetBounds(width, r, |rows|);
    GetRowSlice(Render(rows), r, width);
    if r < |rows| {
      assert |rows[r]| == width;
      RowOfRender(rows, width, r, GetRow(Render(rows), r));
    }
  }

  /** A string that holds, at each position, the character found at the
      matching offset of row `r` in the rendered grid is row `r`. */
  lemma RowOfRender(rows: seq<string>, width: nat, r: nat, row: string)
    requires forall j :: 0 <= j < |rows| ==> |rows[j]| == width
    requires r < |rows| && |row| == width
    requires (width + 1) * r + width <= |Render(rows)|
    requires forall i :: 0 <= i < width ==> row[i] == Render(rows)[(width + 1) * r + i]
    ensures row == rows[r]
  {
    forall i | 0 <= i < width
      ensures row[i] == rows[r][i]
    {
      RenderAt(rows, width, r, i);
    }
  }

  /** On a rendered grid `get_column` may be called with any column of the
      grid, and the column it specifies holds character `c` of every row. */
  lemma ColumnOfRender(rows: seq<string>, c: int)
    requires IsGrid(rows) && 0 <= c < |rows[0]|
    ensures ColumnInRange(Render(rows), c)
    ensures |Column(Lines(Render(rows)), c)| == |rows|
    ensures forall k :: 0 <= k < |rows| ==> Column(Lines(Render(rows)), c)[k] == rows[k][c]
  {
    LinesOfRender(rows);
  }

  /** Rows and columns read the same grid: character `c` of row `r` is
      character `r` of column `c`. */
  lemma RowColumnAgree(rows: seq<string>, r: int, c: int)
    requires IsGrid(rows) && 0 <= r < |rows| && 0 <= c < |rows[0]|
    ensures ColumnInRange(Render(rows), c)
    ensures c < |GetRow(Render(rows), r)| && r < |Column(Lines(Render(rows)), c)|
    ensures Column(Lines(Render(rows)), c)[r] == GetRow(Render(rows), r)[c]
  {
    ColumnOfRender(rows, c);
    GetRowOfRender(rows, r);
    assert |rows[r]| == |rows[0]|;
  }

  // ---------------------------------------------------------------------------
  // Reversal and matching

  /** Reversing twice gives back the original string. */
  lemma ReverseInvolution(s: string)
    ensures Reverse(Reverse(s)) == s
  {
    var r := Reverse(Reverse(s));
    forall i | 0 <= i < |s|
      ensures r[i] == s[i]
    {
      assert Reverse(s)[|s| - 1 - i] == s[i];
    }
  }

  /** The empty word occurs in every line, and nothing else occurs in the
      empty line. */
  lemma ContainsEmpty(text: string, word: string)
    ensures Contains(text, "")
    ensures Contains("", word) <==> word == ""
  {
    assert OccursAt(text, "", 0);
    if word == "" {
      assert OccursAt("", word, 0);
    }
  }

  /** An occurrence of a word maps to an occurrence of its mirror image in
      the line's mirror image, at the mirrored offset. */
  lemma MirroredOccurrence(text: string, word: string, rt: string, rw: string, i: int)
    requires OccursAt(text, word, i)
    requires |rt| == |text| && forall k :: 0 <= k < |text| ==> rt[k] == text[|text| - 1 - k]
    requires |rw| == |word| && forall k :: 0 <= k < |word| ==> rw[k] == word[|word| - 1 - k]
    ensures OccursAt(rt, rw, |text| - |word| - i)
  {
    var n, w := |text|, |word|;
    var j := n - w - i;
    var piece := rt[j..j + w];
    forall m | 0 <= m < w
      ensures piece[m] == rw[m]
    {
      var k := w - 1 - m;
      assert piece[m] == rt[j + m] == text[i + k];
      assert text[i + k] == text[i..i + w][k] == word[k];
    }
    assert piece == rw;
  }

  /** An occurrence of a word at offset `i` is an occurrence of the reversed
      word in the reversed line, at the mirrored offset. */
  lemma OccursAtReverse(text: string, word: string, i: int)
    requires OccursAt(text, word, i)
    ensures OccursAt(Reverse(text), Reverse(word), |text| - |word| - i)
  {
    MirroredOccurrence(text, word, Reverse(text), Reverse(word), i);
  }

  /** A reversed word occurs in a reversed line iff the word occurs in the
      line. */
  lemma ContainsReverse(text: string, word: string)
    ensures Contains(Reverse(text), Reverse(word)) <==> Contains(text, word)
  {
    if i :| OccursAt(text, word, i) {
      OccursAtReverse(text, word, i);
    }
    if j :| OccursAt(Reverse(text), Reverse(word), j) {
      OccursAtReverse(Reverse(text), Reverse(word), j);
      ReverseInvolution(text);
      ReverseInvolution(word);
    }
  }

  // ---------------------------------------------------------------------------
  // Direction factor and points

  /** The four directions get four different factors, 1 to 4 between them;
      an unrecognised direction gets the backward factor. */
  lemma FactorBijection(d1: string, d2: string)
    ensures d1 in DIRECTIONS && d2 in DIRECTIONS && GetFactor(d1) == GetFactor(d2) ==> d1 == d2
    ensures (set d | d in DIRECTIONS :: GetFactor(d)) == {1, 2, 3, 4}
    ensures d1 !in DIRECTIONS ==> GetFactor(d1) == GetFactor(BACKWARD)
  {
    var image := set d | d in DIRECTIONS :: GetFactor(d);
    assert GetFactor(FORWARD) == 1 && GetFactor(DOWN) == 2;
    assert GetFactor(BACKWARD) == 3 && GetFactor(UP) == 4;
    assert image == {1, 2, 3, 4};
  }

  /** With two or more words left, fewer words left never scores less. */
  lemma PointsNonIncreasing(direction: string, n: int, m: int)
    requires 2 <= n <= m
    ensures GetPoints(direction, m) <= GetPoints(direction, n)
  {
    var f := GetFactor(direction);
    if m < THRESHOLD {
      assert (2 * THRESHOLD - m) * f <= (2 * THRESHOLD - n) * f by {
        assert (2 * THRESHOLD - n) * f == (2 * THRESHOLD - m) * f + (m - n) * f;
      }
    } else if n < THRESHOLD {
      assert (2 * THRESHOLD - n) * f >= THRESHOLD * f by {
        assert (2 * THRESHOLD - n) * f == THRESHOLD * f + (THRESHOLD - n) * f;
      }
    }
  }

  /** The last word scores more than any other count. */
  lemma LastWordBonus(direction: string, n: int)
    requires n >= 2
    ensures GetPoints(direction, 1) > GetPoints(direction, n)
  {
    PointsNonIncreasing(direction, 2, n);
  }

  /** A direction with a larger factor scores more for the same count. */
  lemma PointsOrderedByFactor(d1: string, d2: string, n: int)
    requires GetFactor(d1) < GetFactor(d2)
    ensures GetPoints(d1, n) < GetPoints(d2, n)
  {
    var f1, f2 := GetFactor(d1), GetFactor(d2);
    if 1 < n < THRESHOLD {
      assert (2 * THRESHOLD - n) * f2 == (2 * THRESHOLD - n) * f1 + (2 * THRESHOLD - n) * (f2 - f1);
    }
  }

  // ---------------------------------------------------------------------------
  // The guess line

  /** On a rendered grid, forward searches row `i` and backward searches its
      reverse. */
  lemma OrientedRowOfGrid(rows: seq<string>, direction: string, i: int)
    requires IsGrid(rows) && direction in {FORWARD, BACKWARD} && 0 <= i < |rows|
    ensures GuessInRange(Render(rows), direction, i)
    ensures direction == FORWARD ==> OrientedLine(Render(rows), direction, i) == rows[i]
    ensures direction == BACKWARD ==> OrientedLine(Render(rows), direction, i) == Reverse(rows[i])
  {
    GetRowOfRender(rows, i);
  }

  /** On a rendered grid, down searches column `i` from the top and up
      searches it from the bottom. */
  lemma OrientedColumnOfGrid(rows: seq<string>, direction: string, i: int)
    requires IsGrid(rows) && direction in {DOWN, UP} && 0 <= i < |rows[0]|
    ensures GuessInRange(Render(rows), direction, i)
    ensures |OrientedLine(Render(rows), direction, i)| == |rows|
    ensures direction == DOWN ==> forall k :: 0 <= k < |rows| ==>
      OrientedLine(Render(rows), direction, i)[k] == rows[k][i]
    ensures direction == UP ==> forall k :: 0 <= k < |rows| ==>
      OrientedLine(Render(rows), direction, i)[k] == rows[|rows| - 1 - k][i]
  {
    ColumnOfRender(rows, i);
  }

  /** A guess in an unrecognised direction is searched in the empty line, so
      only the empty guess is found there. */
  lemma UnknownDirectionLine(puzzle: string, direction: string, i: int, guessWord: string)
    requires direction !in DIRECTIONS
    ensures GuessInRange(puzzle, direction, i)
    ensures OrientedLine(puzzle, direction, i) == ""
    ensures Contains(OrientedLine(puzzle, direction, i), guessWord) <==> guessWord == ""
  {
    ContainsEmpty("", guessWord);
  }

  // ---------------------------------------------------------------------------
  // Outcomes

  /** Swapping the scores swaps the two win outcomes and keeps a tie. */
  lemma WinnerSwap(score1: int, score2: int)
    ensures GetWinner(score1, score2) == P1_WINS <==> GetWinner(score2, score1) == P2_WINS
    ensures GetWinner(score1, score2) == TIE <==> GetWinner(score2, score1) == TIE
    ensures GetWinner(score1, score1) == TIE
  {
  }
}
