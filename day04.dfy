/** Day 4, "Ceres Search": a word search on a rectangular grid of letters.
    `part_1` counts the occurrences of `XMAS` in the eight directions,
    starting from every `X`; `part_2` counts the `A`s at the centre of two
    crossing diagonal `MAS`es. The eight `search_*` helpers and
    `search_cross_mas` are index arithmetic returning 0 or 1. */
module Day04 {

  type Grid = seq<string>

  /** The grids `part_1` and `part_2` accept: at least one row (an empty
      input fails at `word_search[0]`), and every row as long as the first. */
  predicate Rectangular(grid: Grid)
  {
    |grid| >= 1 && forall r :: 0 <= r < |grid| ==> |grid[r]| == |grid[0]|
  }

  /** `MAX_ROW_INDEX`. */
  function MaxRowIndex(grid: Grid): int
  {
    |grid| - 1
  }

  /** `MAX_COL_INDEX`: taken from row 0, and forced to 0 when there is only
      one row (`MAX_ROW_INDEX` is then falsy). */
  function MaxColIndex(grid: Grid): int
    requires |grid| >= 1
  {
    if |grid| - 1 != 0 then |grid[0]| - 1 else 0
  }

  predicate InGrid(grid: Grid, i: int, j: int)
  {
    0 <= i < |grid| && 0 <= j < |grid[i]|
  }

  /** The cell `(i, j)` exists and holds `c`. */
  predicate Cell(grid: Grid, i: int, j: int, c: char)
  {
    InGrid(grid, i, j) && grid[i][j] == c
  }

  /** The reference reading: `XMAS` is spelt from `(i, j)` in direction `(di, dj)`. */
  predicate ReadsXmas(grid: Grid, i: int, j: int, di: int, dj: int)
  {
    Cell(grid, i, j, 'X') && Cell(grid, i + di, j + dj, 'M') &&
    Cell(grid, i + 2 * di, j + 2 * dj, 'A') && Cell(grid, i + 3 * di, j + 3 * dj, 'S')
  }

  // ---------------------------------------------------------------------------
  // The eight directional searches (lines 12-106)

  function SearchForward(i: int, j: int, grid: Grid, numCols: int): (n: nat)
    requires Rectangular(grid) && InGrid(grid, i, j) && numCols == MaxColIndex(grid)
    ensures n <= 1
  {
    if j + 3 > numCols then 0
    else if grid[i][j..j + 4] != "XMAS" then 0
    else 1
  }

  function SearchBackward(i: int, j: int, grid: Grid): (n: nat)
    requires Rectangular(grid) && InGrid(grid, i, j)
    ensures n <= 1
  {
    if j - 3 < 0 then 0
    else if grid[i][j - 3..j + 1] != "SAMX" then 0
    else 1
  }

  function SearchDown(i: int, j: int, grid: Grid, numRows: int): (n: nat)
    requires Rectangular(grid) && InGrid(grid, i, j) && numRows == MaxRowIndex(grid)
    ensures n <= 1
  {
    if i + 3 > numRows then 0
    else if grid[i + 1][j] != 'M' || grid[i + 2][j] != 'A' || grid[i + 3][j] != 'S' then 0
    else 1
  }

  function SearchUp(i: int, j: int, grid: Grid): (n: nat)
    requires Rectangular(grid) && InGrid(grid, i, j)
    ensures n <= 1
  {
    if i - 3 < 0 then 0
    else if grid[i - 3][j] != 'S' || grid[i - 2][j] != 'A' || grid[i - 1][j] != 'M' then 0
    else 1
  }

  function SearchDiagonalDownRight(i: int, j: int, grid: Grid, numRows: int, numCols: int): (n: nat)
    requires Rectangular(grid) && InGrid(grid, i, j)
    requires numRows == MaxRowIndex(grid) && numCols == MaxColIndex(grid)
    ensures n <= 1
  {
    if i + 3 > numRows || j + 3 > numCols then 0
    else if grid[i + 1][j + 1] != 'M' || grid[i + 2][j + 2] != 'A' || grid[i + 3][j + 3] != 'S' then 0
    else 1
  }

  function SearchDiagonalUpRight(i: int, j: int, grid: Grid, numCols: int): (n: nat)
    requires Rectangular(grid) && InGrid(grid, i, j) && numCols == MaxColIndex(grid)
    ensures n <= 1
  {
    if i - 3 < 0 || j + 3 > numCols then 0
    else if grid[i - 1][j + 1] != 'M' || grid[i - 2][j + 2] != 'A' || grid[i - 3][j + 3] != 'S' then 0
    else 1
  }

  function SearchDiagonalDownLeft(i: int, j: int, grid: Grid, numRows: int): (n: nat)
    requires Rectangular(grid) && InGrid(grid, i, j) && numRows == MaxRowIndex(grid)
    ensures n <= 1
  {
    if i + 3 > numRows || j - 3 < 0 then 0
    else if grid[i + 1][j - 1] != 'M' || grid[i + 2][j - 2] != 'A' || grid[i + 3][j - 3] != 'S' then 0
    else 1
  }

  function SearchDiagonalUpLeft(i: int, j: int, grid: Grid): (n: nat)
    requires Rectangular(grid) && InGrid(grid, i, j)
    ensures n <= 1
  {
    if i - 3 < 0 || j - 3 < 0 then 0
    else if grid[i - 1][j - 1] != 'M' || grid[i - 2][j - 2] != 'A' || grid[i - 3][j - 3] != 'S' then 0
    else 1
  }

  // ---------------------------------------------------------------------------
  // What the searches find

  /** With at least two rows, `search_forward` finds `XMAS` exactly when the
      row reads it from `(i, j)`, the cell itself included. */
  lemma SearchForwardReads(i: int, j: int, grid: Grid)
    requires Rectangular(grid) && InGrid(grid, i, j) && |grid| >= 2
    ensures SearchForward(i, j, grid, MaxColIndex(grid)) == 1 <==> ReadsXmas(grid, i, j, 0, 1)
  {
    if j + 4 <= |grid[i]| {
      var w := grid[i][j..j + 4];
      assert w == [grid[i][j], grid[i][j + 1], grid[i][j + 2], grid[i][j + 3]];
    }
  }

  /** `search_backward` finds `XMAS` read leftwards from `(i, j)`, the cell
      itself included, in any grid. */
  lemma SearchBackwardReads(i: int, j: int, grid: Grid)
    requires Rectangular(grid) && InGrid(grid, i, j)
    ensures SearchBackward(i, j, grid) == 1 <==> ReadsXmas(grid, i, j, 0, -1)
  {
    if j >= 3 {
      var w := grid[i][j - 3..j + 1];
      assert w == [grid[i][j - 3], grid[i][j - 2], grid[i][j - 1], grid[i][j]];
    }
  }

  /** The other six look at the three following cells only: they agree with
      the reference reading for a cell holding `X`, as the callers ensure. */
  lemma SearchOthersRead(i: int, j: int, grid: Grid)
    requires Rectangular(grid) && InGrid(grid, i, j) && grid[i][j] == 'X'
    ensures SearchDown(i, j, grid, MaxRowIndex(grid)) == 1 <==> ReadsXmas(grid, i, j, 1, 0)
    ensures SearchUp(i, j, grid) == 1 <==> ReadsXmas(grid, i, j, -1, 0)
    ensures SearchDiagonalDownRight(i, j, grid, MaxRowIndex(grid), MaxColIndex(grid)) == 1 <==> ReadsXmas(grid, i, j, 1, 1)
    ensures SearchDiagonalUpRight(i, j, grid, MaxColIndex(grid)) == 1 <==> ReadsXmas(grid, i, j, -1, 1)
    ensures SearchDiagonalDownLeft(i, j, grid, MaxRowIndex(grid)) == 1 <==> ReadsXmas(grid, i, j, 1, -1)
    ensures SearchDiagonalUpLeft(i, j, grid) == 1 <==> ReadsXmas(grid, i, j, -1, -1)
  {
  }

  /** In a one-row grid the column bound is 0, so `search_forward` never
      matches, while `search_backward` still can. */
  lemma OneRowForwardNeverMatches(i: int, j: int, grid: Grid)
    requires Rectangular(grid) && InGrid(grid, i, j) && |grid| == 1
    ensures SearchForward(i, j, grid, MaxColIndex(grid)) == 0
  {
  }

  // ---------------------------------------------------------------------------
  // Part 1

  /** What `part_1` adds for the cell `(i, j)`. */
  function XmasAt(grid: Grid, i: int, j: int): (n: nat)
    requires Rectangular(grid) && InGrid(grid, i, j)
    ensures n <= 8
  {
    if grid[i][j] != 'X' then 0
    else
      var numRows, numCols := MaxRowIndex(grid), MaxColIndex(grid);
      SearchForward(i, j, grid, numCols) + SearchBackward(i, j, grid) +
      SearchDown(i, j, grid, numRows) + SearchUp(i, j, grid) +
      SearchDiagonalDownRight(i, j, grid, numRows, numCols) +
      SearchDiagonalUpRight(i, j, grid, numCols) +
      SearchDiagonalDownLeft(i, j, grid, numRows) +
      SearchDiagonalUpLeft(i, j, grid)
  }

  function Indicator(b: bool): nat { if b then 1 else 0 }

  /** The reference count: the directions in which `XMAS` is spelt from `(i, j)`. */
  function WordsAt(grid: Grid, i: int, j: int): nat
  {
    Indicator(ReadsXmas(grid, i, j, 0, 1)) + Indicator(ReadsXmas(grid, i, j, 0, -1)) +
    Indicator(ReadsXmas(grid, i, j, 1, 0)) + Indicator(ReadsXmas(grid, i, j, -1, 0)) +
    Indicator(ReadsXmas(grid, i, j, 1, 1)) + Indicator(ReadsXmas(grid, i, j, -1, 1)) +
    Indicator(ReadsXmas(grid, i, j, 1, -1)) + Indicator(ReadsXmas(grid, i, j, -1, -1))
  }

  /** With at least two rows, `part_1` counts, at every cell, exactly the
      directions in which `XMAS` starts there. */
  lemma XmasAtCountsWords(grid: Grid, i: int, j: int)
    requires Rectangular(grid) && InGrid(grid, i, j) && |grid| >= 2
    ensures XmasAt(grid, i, j) == WordsAt(grid, i, j)
  {
    if grid[i][j] == 'X' {
      SearchForwardReads(i, j, grid);
      SearchBackwardReads(i, j, grid);
      SearchOthersRead(i, j, grid);
    }
  }

  /** `Indicator(grid[i][j] == c)` summed over the first `n` cells of row `i`. */
  function RowChars(grid: Grid, c: char, i: nat, n: nat): nat
    requires i < |grid| && n <= |grid[i]|
  {
    if n == 0 then 0 else RowChars(grid, c, i, n - 1) + Indicator(grid[i][n - 1] == c)
  }

  /** The number of cells holding `c` in the first `m` rows. */
  function GridChars(grid: Grid, c: char, m: nat): nat
    requires m <= |grid|
  {
    if m == 0 then 0 else GridChars(grid, c, m - 1) + RowChars(grid, c, m - 1, |grid[m - 1]|)
  }

  /** `XmasAt` summed over the first `n` cells of row `i`. */
  function RowXmas(grid: Grid, i: nat, n: nat): nat
    requires Rectangular(grid) && i < |grid| && n <= |grid[i]|
  {
    if n == 0 then 0 else RowXmas(grid, i, n - 1) + XmasAt(grid, i, n - 1)
  }

  /** `XmasAt` summed over the first `m` rows. */
  function GridXmas(grid: Grid, m: nat): nat
    requires Rectangular(grid) && m <= |grid|
  {
    if m == 0 then 0 else GridXmas(grid, m - 1) + RowXmas(grid, m - 1, |grid[m - 1]|)
  }

  /** `WordsAt` summed over the first `n` cells of row `i`. */
  function RowWords(grid: Grid, i: nat, n: nat): nat
    requires i < |grid| && n <= |grid[i]|
  {
    if n == 0 then 0 else RowWords(grid, i, n - 1) + WordsAt(grid, i, n - 1)
  }

  /** `WordsAt` summed over the first `m` rows. */
  function GridWords(grid: Grid, m: nat): nat
    requires m <= |grid|
  {
    if m == 0 then 0 else GridWords(grid, m - 1) + RowWords(grid, m - 1, |grid[m - 1]|)
  }

  /** What `part_1` returns. */
  function Part1Answer(grid: Grid): nat
    requires Rectangular(grid)
  {
    GridXmas(grid, |grid|)
  }

  /** The number of `XMAS` words in the grid, over all cells and directions. */
  function WordCount(grid: Grid): nat
  {
    GridWords(grid, |grid|)
  }

  lemma {:induction false} RowXmasCountsWords(grid: Grid, i: nat, n: nat)
    requires Rectangular(grid) && i < |grid| && n <= |grid[i]| && |grid| >= 2
    ensures RowXmas(grid, i, n) == RowWords(grid, i, n)
    decreases n
  {
    if n > 0 {
      RowXmasCountsWords(grid, i, n - 1);
      XmasAtCountsWords(grid, i, n - 1);
    }
  }

  lemma {:induction false} GridXmasCountsWords(grid: Grid, m: nat)
    requires Rectangular(grid) && m <= |grid| && |grid| >= 2
    ensures GridXmas(grid, m) == GridWords(grid, m)
    decreases m
  {
    if m > 0 {
      GridXmasCountsWords(grid, m - 1);
      RowXmasCountsWords(grid, m - 1, |grid[m - 1]|);
    }
  }

  /** With at least two rows, `part_1` is the number of `XMAS` words in the grid. */
  lemma Part1CountsWords(grid: Grid)
    requires Rectangular(grid) && |grid| >= 2
    ensures Part1Answer(grid) == WordCount(grid)
  {
    GridXmasCountsWords(grid, |grid|);
  }

  lemma {:induction false} RowXmasBound(grid: Grid, i: nat, n: nat)
    requires Rectangular(grid) && i < |grid| && n <= |grid[i]|
    ensures RowXmas(grid, i, n) <= 8 * RowChars(grid, 'X', i, n)
    decreases n
  {
    if n > 0 {
      RowXmasBound(grid, i, n - 1);
    }
  }

  lemma {:induction false} GridXmasBound(grid: Grid, m: nat)
    requires Rectangular(grid) && m <= |grid|
    ensures GridXmas(grid, m) <= 8 * GridChars(grid, 'X', m)
    decreases m
  {
    if m > 0 {
      GridXmasBound(grid, m - 1);
      RowXmasBound(grid, m - 1, |grid[m - 1]|);
    }
  }

  /** `part_1` is at most eight times the number of `X`s. */
  lemma Part1Bound(grid: Grid)
    requires Rectangular(grid)
    ensures Part1Answer(grid) <= 8 * GridChars(grid, 'X', |grid|)
  {
    GridXmasBound(grid, |grid|);
  }

  /** The one-row quirk on two small grids: `SAMX` is found, `XMAS` is not,
      although it is spelt left to right from the first cell. */
  lemma OneRowExamples()
    ensures Part1Answer(["SAMX"]) == 1
    ensures Part1Answer(["XMAS"]) == 0 && ReadsXmas(["XMAS"], 0, 0, 0, 1)
  {
    var g1: Grid := ["SAMX"];
    assert g1[0][0..4] == "SAMX";
    assert RowXmas(g1, 0, 3) == 0;
    var g2: Grid := ["XMAS"];
    assert RowXmas(g2, 0, 1) == 0;
    assert RowXmas(g2, 0, 4) == 0;
  }

  /** `part_1`: for every `X`, add the eight searches. */
  method Part1(text: seq<string>) returns (numberOfXmas: int)
    requires Rectangular(text)
    ensures numberOfXmas == Part1Answer(text)
  {
    numberOfXmas := 0;
    var wordSearch := text;
    var maxRowIndex := |wordSearch| - 1;
    var maxColIndex := if maxRowIndex != 0 then |wordSearch[0]| - 1 else 0;
    for i := 0 to |wordSearch|
      invariant numberOfXmas == GridXmas(wordSearch, i)
    {
      var line := wordSearch[i];
      for j := 0 to |line|
        invariant numberOfXmas == GridXmas(wordSearch, i) + RowXmas(wordSearch, i, j)
      {
        if line[j] == 'X' {
          numberOfXmas := numberOfXmas + (
            SearchForward(i, j, wordSearch, maxColIndex) +
            SearchBackward(i, j, wordSearch) +
            SearchDown(i, j, wordSearch, maxRowIndex) +
            SearchUp(i, j, wordSearch) +
            SearchDiagonalDownRight(i, j, wordSearch, maxRowIndex, maxColIndex) +
            SearchDiagonalUpRight(i, j, wordSearch, maxColIndex) +
            SearchDiagonalDownLeft(i, j, wordSearch, maxRowIndex) +
            SearchDiagonalUpLeft(i, j, wordSearch));
        }
      }
    }
  }

  // ---------------------------------------------------------------------------
  // Part 2

  /** `search_cross_mas` (lines 109-130). */
  function SearchCrossMas(i: int, j: int, grid: Grid, numRows: int, numCols: int): (n: nat)
    requires Rectangular(grid) && InGrid(grid, i, j)
    requires numRows == MaxRowIndex(grid) && numCols == MaxColIndex(grid)
    ensures n <= 1
  {
    if i + 1 > numRows || i - 1 < 0 || j + 1 > numCols || j - 1 < 0 then 0
    else if grid[i - 1][j - 1] == 'M' && grid[i + 1][j + 1] == 'S' &&
            ((grid[i + 1][j - 1] == 'M' && grid[i - 1][j + 1] == 'S') ||
             (grid[i + 1][j - 1] == 'S' && grid[i - 1][j + 1] == 'M')) then 1
    else if grid[i - 1][j - 1] == 'S' && grid[i + 1][j + 1] == 'M' &&
            ((grid[i + 1][j - 1] == 'M' && grid[i - 1][j + 1] == 'S') ||
             (grid[i + 1][j - 1] == 'S' && grid[i - 1][j + 1] == 'M')) then 1
    else 0
  }

  /** `(i, j)` is not on the border: all four diagonal neighbours exist. */
  predicate Interior(grid: Grid, i: int, j: int)
  {
    1 <= i && i + 1 < |grid| && 1 <= j && j + 1 < |grid[i]|
  }

  /** The two ends of a diagonal are an `M` and an `S`, in either order. */
  predicate MasEnds(a: char, b: char)
  {
    multiset{a, b} == multiset{'M', 'S'}
  }

  /** The reference reading: both diagonals through `(i, j)` spell `MAS` one
      way or the other (the centre is the caller's `A`). */
  predicate CrossAt(grid: Grid, i: int, j: int)
    requires InGrid(grid, i, j) && Rectangular(grid)
  {
    Interior(grid, i, j) &&
    MasEnds(grid[i - 1][j - 1], grid[i + 1][j + 1]) &&
    MasEnds(grid[i + 1][j - 1], grid[i - 1][j + 1])
  }

  lemma MasEndsCases(a: char, b: char)
    ensures MasEnds(a, b) <==> (a == 'M' && b == 'S') || (a == 'S' && b == 'M')
  {
    if MasEnds(a, b) {
      assert a in multiset{'M', 'S'};
      assert b in multiset{'M', 'S'};
    }
  }

  /** `search_cross_mas` returns 1 exactly on an X of two `MAS`es, and 0 on the border. */
  lemma SearchCrossMasReads(i: int, j: int, grid: Grid)
    requires Rectangular(grid) && InGrid(grid, i, j)
    ensures SearchCrossMas(i, j, grid, MaxRowIndex(grid), MaxColIndex(grid)) == 1 <==> CrossAt(grid, i, j)
    ensures !Interior(grid, i, j) ==> SearchCrossMas(i, j, grid, MaxRowIndex(grid), MaxColIndex(grid)) == 0
  {
    if Interior(grid, i, j) {
      MasEndsCases(grid[i - 1][j - 1], grid[i + 1][j + 1]);
      MasEndsCases(grid[i + 1][j - 1], grid[i - 1][j + 1]);
    }
  }

  /** What `part_2` adds for the cell `(i, j)`. */
  function CrossMasAt(grid: Grid, i: int, j: int): nat
    requires Rectangular(grid) && InGrid(grid, i, j)
  {
    if grid[i][j] == 'A' then SearchCrossMas(i, j, grid, MaxRowIndex(grid), MaxColIndex(grid)) else 0
  }

  function RowCross(grid: Grid, i: nat, n: nat): nat
    requires Rectangular(grid) && i < |grid| && n <= |grid[i]|
  {
    if n == 0 then 0 else RowCross(grid, i, n - 1) + CrossMasAt(grid, i, n - 1)
  }

  function GridCross(grid: Grid, m: nat): nat
    requires Rectangular(grid) && m <= |grid|
  {
    if m == 0 then 0 else GridCross(grid, m - 1) + RowCross(grid, m - 1, |grid[m - 1]|)
  }

  /** What `part_2` returns. */
  function Part2Answer(grid: Grid): nat
    requires Rectangular(grid)
  {
    GridCross(grid, |grid|)
  }

  /** An `A` adds one exactly when it is the centre of a cross. */
  lemma CrossMasAtIff(grid: Grid, i: int, j: int)
    requires Rectangular(grid) && InGrid(grid, i, j)
    ensures CrossMasAt(grid, i, j) == Indicator(grid[i][j] == 'A' && CrossAt(grid, i, j))
  {
    SearchCrossMasReads(i, j, grid);
  }

  lemma {:induction false} RowCrossBound(grid: Grid, i: nat, n: nat)
    requires Rectangular(grid) && i < |grid| && n <= |grid[i]|
    ensures RowCross(grid, i, n) <= RowChars(grid, 'A', i, n)
    decreases n
  {
    if n > 0 {
      RowCrossBound(grid, i, n - 1);
      CrossMasAtIff(grid, i, n - 1);
    }
  }

  lemma {:induction false} GridCrossBound(grid: Grid, m: nat)
    requires Rectangular(grid) && m <= |grid|
    ensures GridCross(grid, m) <= GridChars(grid, 'A', m)
    decreases m
  {
    if m > 0 {
      GridCrossBound(grid, m - 1);
      RowCrossBound(grid, m - 1, |grid[m - 1]|);
    }
  }

  /** `part_2` is at most the number of `A`s. */
  lemma Part2Bound(grid: Grid)
    requires Rectangular(grid)
    ensures Part2Answer(grid) <= GridChars(grid, 'A', |grid|)
  {
    GridCrossBound(grid, |grid|);
  }

  /** `part_2`: for every `A`, add `search_cross_mas`. */
  method Part2(text: seq<string>) returns (numberOfXmas: int)
    requires Rectangular(text)
    ensures numberOfXmas == Part2Answer(text)
  {
    numberOfXmas := 0;
    var wordSearch := text;
    var maxRowIndex := |wordSearch| - 1;
    var maxColIndex := if maxRowIndex != 0 then |wordSearch[0]| - 1 else 0;
    for i := 0 to |wordSearch|
      invariant numberOfXmas == GridCross(wordSearch, i)
    {
      var line := wordSearch[i];
      for j := 0 to |line|
        invariant numberOfXmas == GridCross(wordSearch, i) + RowCross(wordSearch, i, j)
      {
        if line[j] == 'A' {
          numberOfXmas := numberOfXmas + SearchCrossMas(i, j, wordSearch, maxRowIndex, maxColIndex);
        }
      }
    }
  }
}
