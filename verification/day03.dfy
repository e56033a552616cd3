/** Day 3: the numbers of an engine schematic that touch a symbol are summed,
    each number being blanked out when it is taken so that it is counted once
    (03/part1/part1.go). */
module Day03 {
  import opened Text

  type Grid = seq<seq<char>>

  /** All rows have the width of the first; the program reads the width from
      row 0. */
  predicate Rectangular(grid: Grid) {
    forall i, j :: 0 <= i < |grid| && 0 <= j < |grid| ==> |grid[i]| == |grid[j]|
  }

  function Width(grid: Grid): nat {
    if |grid| == 0 then 0 else |grid[0]|
  }

  /** `isSpecialCharacter`: anything but '.' and a digit is a symbol. */
  predicate IsSpecial(c: char) {
    c != '.' && !IsDigit(c)
  }

  /** The first index of the run of digits through index `c`. */
  function RunStart(line: seq<char>, c: nat): (s: nat)
    requires c < |line| && IsDigit(line[c])
    ensures s <= c && (s == 0 || !IsDigit(line[s - 1]))
    ensures forall k :: s <= k <= c ==> IsDigit(line[k])
    decreases c
  {
    if c > 0 && IsDigit(line[c - 1]) then RunStart(line, c - 1) else c
  }

  /** One past the last index of the run of digits through index `c`. */
  function RunEnd(line: seq<char>, c: nat): (e: nat)
    requires c < |line| && IsDigit(line[c])
    ensures c < e <= |line| && (e == |line| || !IsDigit(line[e]))
    ensures forall k :: c <= k < e ==> IsDigit(line[k])
    decreases |line| - c
  {
    if c + 1 < |line| && IsDigit(line[c + 1]) then RunEnd(line, c + 1) else c + 1
  }

  /** The line with the cells in [s, e) overwritten by '.'. */
  function Blank(line: seq<char>, s: nat, e: nat): (out: seq<char>)
    ensures |out| == |line|
    ensures forall k :: 0 <= k < |line| ==> out[k] == if s <= k < e then '.' else line[k]
  {
    seq(|line|, k requires 0 <= k < |line| => if s <= k < e then '.' else line[k])
  }

  datatype Extraction = Extraction(value: nat, grid: Grid)

  /** What taking the number at (r, c) does: nothing when the cell is not a
      digit; otherwise the value of the whole run of digits through the cell,
      with that run (and only that run) overwritten by '.'. */
  function Extracted(grid: Grid, r: nat, c: nat): Extraction
    requires Rectangular(grid) && r < |grid| && c < |grid[r]|
  {
    var line := grid[r];
    if !IsDigit(line[c]) then Extraction(0, grid)
    else
      var s, e := RunStart(line, c), RunEnd(line, c);
      Extraction(DecimalValue(line[s..e]), grid[r := Blank(line, s, e)])
  }

  lemma DecimalValueConsDigit(d: char, rest: string)
    requires IsDigit(d) && AllDigits(rest)
    ensures AllDigits([d] + rest)
    ensures DecimalValue([d] + rest) == DigitValue(d) * Pow10(|rest|) + DecimalValue(rest)
  {
    DecimalValueAppend([d], rest);
    assert [d][..0] == [];
    assert DecimalValue([d]) == DigitValue(d);
  }

  /** The leftward scan of `extractNumericalValue`: from a blanked digit at
      `c`, take the digits to its left, each worth ten times the previous. */
  method TakeLeft(line: seq<char>, c: nat) returns (value: nat, out: seq<char>, s: nat)
    requires c < |line| && IsDigit(line[c])
    ensures s == RunStart(line, c)
    ensures value == DecimalValue(line[s..c + 1]) && out == Blank(line, s, c + 1)
  {
    StartLeft(line, c);
    var v, base, i;
    v, base, out, i := ScanLeft(line, c);
    value := v;
    s := i + 1;
    RunStartUnique(line, c, s);
  }

  /** The leftward loop of `extractNumber`: blanks the digits left of `c` one
      by one, accumulating their value, and stops at the first non-digit. */
  method ScanLeft(line: seq<char>, c: nat) returns (v: int, base: int, out: seq<char>, i: int)
    requires c < |line| && IsDigit(line[c])
    requires ScannedLeft(line, c - 1, c, DigitValue(line[c]), 10, line[c := '.'])
    ensures ScannedLeft(line, i, c, v, base, out) && (i < 0 || !IsDigit(line[i]))
  {
    out := line[c := '.'];
    v := DigitValue(line[c]);
    base := 10;
    i := c - 1;
    while i >= 0 && IsDigit(out[i])
      invariant ScannedLeft(line, i, c, v, base, out)
    {
      ScanLeftStep(line, i, c, v, base, out);
      v := DigitValue(line[i]) * base + v;
      base := 10 * base;
      out := out[i := '.'];
      i := i - 1;
    }
    if i >= 0 {
      assert out[i] == line[i];
    }
  }

  lemma StartLeft(line: seq<char>, c: nat)
    requires c < |line| && IsDigit(line[c])
    ensures ScannedLeft(line, c - 1, c, DigitValue(line[c]), 10, line[c := '.'])
  {
    assert line[c..c + 1] == [line[c]];
    assert [line[c]][..0] == [];
    assert Blank(line, c, c + 1) == line[c := '.'];
  }

  /** The state of the leftward scan: the run after `i` up to `c` is digits,
      `v` is its value, `base` the power of ten for the next digit and `out`
      has the run blanked. */
  predicate ScannedLeft(line: seq<char>, i: int, c: nat, v: int, base: int, out: seq<char>) {
    -1 <= i < c < |line| && (forall k :: i < k <= c ==> IsDigit(line[k])) &&
    v == DecimalValue(line[i + 1..c + 1]) && base == Pow10(c - i) && out == Blank(line, i + 1, c + 1)
  }

  lemma ScanLeftStep(line: seq<char>, i: int, c: nat, v: int, base: int, out: seq<char>)
    requires ScannedLeft(line, i, c, v, base, out) && i >= 0 && IsDigit(out[i])
    ensures ScannedLeft(line, i - 1, c, DigitValue(line[i]) * base + v, 10 * base, out[i := '.'])
  {
    assert out[i] == line[i];
    BlankLeft(line, i, c + 1);
    assert line[i..c + 1] == [line[i]] + line[i + 1..c + 1];
    DecimalValueConsDigit(line[i], line[i + 1..c + 1]);
  }

  lemma BlankLeft(line: seq<char>, i: nat, e: nat)
    requires i < e <= |line|
    ensures Blank(line, i + 1, e)[i := '.'] == Blank(line, i, e)
  {
  }

  lemma BlankRight(line: seq<char>, s: nat, j: nat)
    requires s <= j < |line|
    ensures Blank(line, s, j)[j := '.'] == Blank(line, s, j + 1)
  {
  }

  /** The rightward scan of `extractNumericalValue`: each further digit shifts
      the value one decimal place, up to the last column. */
  method TakeRight(line: seq<char>, c: nat, s: nat, value0: nat, out0: seq<char>) returns (value: nat, out: seq<char>)
    requires c < |line| && IsDigit(line[c]) && s == RunStart(line, c)
    requires value0 == DecimalValue(line[s..c + 1]) && out0 == Blank(line, s, c + 1)
    ensures value == DecimalValue(line[s..RunEnd(line, c)]) && out == Blank(line, s, RunEnd(line, c))
  {
    RunStartDigits(line, c, s);
    var v: int, j;
    v, out, j := ScanRight(line, s, c + 1, value0, out0);
    value := v;
    RunEndUnique(line, c, j);
  }

  /** The loop of the rightward scan, from column `j0` to the first column
      that is not a digit or the end of the row. */
  method ScanRight(line: seq<char>, s: nat, j0: nat, v0: int, out0: seq<char>) returns (v: int, out: seq<char>, j: nat)
    requires Scanned(line, s, j0, v0, out0)
    ensures j0 <= j <= |line| && Scanned(line, s, j, v, out)
    ensures j == |line| || !IsDigit(line[j])
  {
    v, out, j := v0, out0, j0;
    while j <= |line| - 1 && IsDigit(out[j])
      invariant j0 <= j <= |line| && Scanned(line, s, j, v, out)
    {
      ScanStep(line, s, j, v, out);
      out := out[j := '.'];
      v := 10 * v + DigitValue(line[j]);
      j := j + 1;
    }
    if j < |line| {
      assert out[j] == line[j];
    }
  }

  /** The state of the rightward scan: the run from `s` up to `j` is digits,
      `v` is its value and `out` has it blanked. */
  predicate Scanned(line: seq<char>, s: nat, j: nat, v: int, out: seq<char>) {
    s <= j <= |line| && (forall k :: s <= k < j ==> IsDigit(line[k])) &&
    AllDigits(line[s..j]) && v == DecimalValue(line[s..j]) && out == Blank(line, s, j)
  }

  lemma RunStartDigits(line: seq<char>, c: nat, s: nat)
    requires c < |line| && IsDigit(line[c]) && s == RunStart(line, c)
    ensures forall k :: s <= k < c + 1 ==> IsDigit(line[k])
    ensures AllDigits(line[s..c + 1])
  {
  }

  /** One more digit of the run, blanked and added to the value. */
  lemma ScanStep(line: seq<char>, s: nat, j: nat, v: int, out: seq<char>)
    requires Scanned(line, s, j, v, out) && j < |line| && IsDigit(out[j])
    ensures IsDigit(line[j])
    ensures Scanned(line, s, j + 1, 10 * v + DigitValue(line[j]), out[j := '.'])
  {
    assert out[j] == line[j];
    BlankRight(line, s, j);
    DecimalValueSnoc(line, s, j);
  }

  /** One more digit on the right shifts the value one decimal place. */
  lemma DecimalValueSnoc(line: seq<char>, s: nat, j: nat)
    requires s <= j < |line| && forall k :: s <= k <= j ==> IsDigit(line[k])
    ensures AllDigits(line[s..j]) && AllDigits(line[s..j + 1])
    ensures DecimalValue(line[s..j + 1]) == 10 * DecimalValue(line[s..j]) + DigitValue(line[j])
  {
    assert line[s..j + 1][..j - s] == line[s..j];
  }

  /** `extractNumericalValue` on one row. */
  method ExtractFromLine(line: seq<char>, c: nat) returns (value: nat, out: seq<char>)
    requires c < |line|
    ensures !IsDigit(line[c]) ==> value == 0 && out == line
    ensures IsDigit(line[c]) ==>
      var s, e := RunStart(line, c), RunEnd(line, c);
      value == DecimalValue(line[s..e]) && out == Blank(line, s, e)
  {
    if !IsDigit(line[c]) {
      return 0, line;
    }
    var s;
    value, out, s := TakeLeft(line, c);
    value, out := TakeRight(line, c, s, value, out);
  }

  lemma {:induction false} RunStartUnique(line: seq<char>, c: nat, s: nat)
    requires c < |line| && IsDigit(line[c]) && s <= c
    requires s == 0 || !IsDigit(line[s - 1])
    requires forall k :: s <= k <= c ==> IsDigit(line[k])
    ensures RunStart(line, c) == s
    decreases c
  {
    if c > s {
      RunStartUnique(line, c - 1, s);
    }
  }

  lemma {:induction false} RunEndUnique(line: seq<char>, c: nat, e: nat)
    requires c < e <= |line| && IsDigit(line[c])
    requires e == |line| || !IsDigit(line[e])
    requires forall k :: c <= k < e ==> IsDigit(line[k])
    ensures RunEnd(line, c) == e
    decreases |line| - c
  {
    if c + 1 < e {
      RunEndUnique(line, c + 1, e);
    }
  }

  /** `extractNumericalValue`: take the number at (row, column) out of the grid. */
  method ExtractNumericalValue(grid: Grid, row: nat, column: nat) returns (value: nat, result: Grid)
    requires Rectangular(grid) && row < |grid| && column < |grid[row]|
    ensures Extraction(value, result) == Extracted(grid, row, column)
    ensures |result| == |grid| && forall i :: 0 <= i < |grid| && i != row ==> result[i] == grid[i]
  {
    var out;
    value, out := ExtractFromLine(grid[row], column);
    result := grid[row := out];
  }

  /** Taking a number blanks its whole run: taking it again from any of its
      cells yields 0. */
  lemma NoDoubleCounting(grid: Grid, r: nat, c: nat, c': nat)
    requires Rectangular(grid) && r < |grid| && c < |grid[r]| && IsDigit(grid[r][c])
    requires RunStart(grid[r], c) <= c' < RunEnd(grid[r], c)
    ensures Extracted(Extracted(grid, r, c).grid, r, c').value == 0
  {
  }

  /** Taking a number changes only digit cells, and only to '.', so the shape
      of the grid and every symbol stay where they were. */
  predicate OnlyDigitsBlanked(before: Grid, after: Grid) {
    |after| == |before|
    && (forall i :: 0 <= i < |before| ==> |after[i]| == |before[i]|)
    && forall i, j :: 0 <= i < |before| && 0 <= j < |before[i]| ==>
         after[i][j] == before[i][j] || (IsDigit(before[i][j]) && after[i][j] == '.')
  }

  lemma ExtractedBlanksDigits(grid: Grid, r: nat, c: nat)
    requires Rectangular(grid) && r < |grid| && c < |grid[r]|
    ensures OnlyDigitsBlanked(grid, Extracted(grid, r, c).grid)
  {
  }

  lemma OnlyDigitsBlankedTransitive(a: Grid, b: Grid, c: Grid)
    requires OnlyDigitsBlanked(a, b) && OnlyDigitsBlanked(b, c)
    ensures OnlyDigitsBlanked(a, c)
  {
  }

  /** (i, j) lies inside the grid and at most one step from (row, column) in
      each direction. */
  predicate Touches(height: nat, width: nat, row: nat, column: nat, i: nat, j: nat) {
    i < height && j < width && row <= i + 1 && i <= row + 1 && column <= j + 1 && j <= column + 1
  }

  /** Row-major order without repeats. */
  predicate RowMajor(cells: seq<(nat, nat)>) {
    forall k, l :: 0 <= k < l < |cells| ==>
      cells[k].0 < cells[l].0 || (cells[k].0 == cells[l].0 && cells[k].1 < cells[l].1)
  }

  /** The cells of the 3×3 neighbourhood of (row, column), clipped to the grid,
      in row-major order. */
  function Neighbourhood(height: nat, width: nat, row: nat, column: nat): (cells: seq<(nat, nat)>)
    ensures forall k :: 0 <= k < |cells| ==> cells[k].0 < height && cells[k].1 < width
  {
    var r0 := if row >= 1 then row - 1 else 0;
    var r1 := if row + 1 <= height - 1 then row + 1 else height - 1;
    var c0 := if column >= 1 then column - 1 else 0;
    var c1 := if column + 1 <= width - 1 then column + 1 else width - 1;
    Cells(r0, r1, c0, c1, height, width)
  }

  /** The cells (i, j) with r0 <= i <= r1 and c0 <= j <= c1, row by row, that
      lie inside the grid. */
  function Cells(r0: int, r1: int, c0: int, c1: int, height: nat, width: nat): (cells: seq<(nat, nat)>)
    ensures forall k :: 0 <= k < |cells| ==> cells[k].0 < height && cells[k].1 < width
    decreases r1 - r0
  {
    if r0 > r1 || r0 < 0 || r0 >= height then []
    else RowCells(r0, c0, c1, width) + Cells(r0 + 1, r1, c0, c1, height, width)
  }

  function RowCells(r: nat, c0: int, c1: int, width: nat): (cells: seq<(nat, nat)>)
    ensures forall k :: 0 <= k < |cells| ==> cells[k].0 == r && cells[k].1 < width
    decreases c1 - c0
  {
    if c0 > c1 || c0 < 0 || c0 >= width then []
    else [(r, c0 as nat)] + RowCells(r, c0 + 1, c1, width)
  }

  /** The cell (i, j) is among the cells. */
  predicate Listed(cells: seq<(nat, nat)>, i: nat, j: nat) {
    (i, j) in cells
  }

  /** A row's cells are the columns from c0 to c1 inside the grid, left to right. */
  lemma {:induction false} RowCellsMeaning(r: nat, c0: int, c1: int, width: nat)
    ensures forall k :: 0 <= k < |RowCells(r, c0, c1, width)| ==> c0 <= RowCells(r, c0, c1, width)[k].1 <= c1
    ensures 0 <= c0 ==> forall j: nat :: c0 <= j <= c1 && j < width ==> Listed(RowCells(r, c0, c1, width), r, j)
    ensures RowMajor(RowCells(r, c0, c1, width))
    decreases c1 - c0
  {
    var cells := RowCells(r, c0, c1, width);
    if !(c0 > c1 || c0 < 0 || c0 >= width) {
      var rest := RowCells(r, c0 + 1, c1, width);
      RowCellsMeaning(r, c0 + 1, c1, width);
      assert cells == [(r, c0 as nat)] + rest;
      assert forall k :: 0 < k < |cells| ==> cells[k] == rest[k - 1];
      forall j: nat | c0 <= j <= c1 && j < width ensures Listed(cells, r, j) {
        if j > c0 {
          assert Listed(rest, r, j);
        }
      }
    }
  }

  /** The cells are the rows from r0 to r1 and columns from c0 to c1 inside
      the grid, in row-major order. */
  lemma {:induction false} CellsMeaning(r0: int, r1: int, c0: int, c1: int, height: nat, width: nat)
    ensures forall k :: 0 <= k < |Cells(r0, r1, c0, c1, height, width)| ==>
      r0 <= Cells(r0, r1, c0, c1, height, width)[k].0 <= r1 && c0 <= Cells(r0, r1, c0, c1, height, width)[k].1 <= c1
    ensures 0 <= r0 && 0 <= c0 ==> forall i: nat, j: nat ::
      r0 <= i <= r1 && i < height && c0 <= j <= c1 && j < width ==> Listed(Cells(r0, r1, c0, c1, height, width), i, j)
    ensures RowMajor(Cells(r0, r1, c0, c1, height, width))
    decreases r1 - r0
  {
    var cells := Cells(r0, r1, c0, c1, height, width);
    if !(r0 > r1 || r0 < 0 || r0 >= height) {
      var here, rest := RowCells(r0, c0, c1, width), Cells(r0 + 1, r1, c0, c1, height, width);
      RowCellsMeaning(r0, c0, c1, width);
      CellsMeaning(r0 + 1, r1, c0, c1, height, width);
      assert cells == here + rest;
      assert forall k :: 0 <= k < |here| ==> cells[k] == here[k];
      assert forall k :: |here| <= k < |cells| ==> cells[k] == rest[k - |here|];
      if 0 <= c0 {
        forall i: nat, j: nat | r0 <= i <= r1 && i < height && c0 <= j <= c1 && j < width
          ensures Listed(cells, i, j)
        {
          if i == r0 {
            assert Listed(here, i, j);
          } else {
            assert Listed(rest, i, j);
          }
        }
      }
    }
  }

  /** The neighbourhood holds exactly the grid cells touching (row, column),
      each once, row by row from the top and left to right within a row. */
  lemma NeighbourhoodMeaning(height: nat, width: nat, row: nat, column: nat)
    ensures forall k :: 0 <= k < |Neighbourhood(height, width, row, column)| ==>
      Touches(height, width, row, column, Neighbourhood(height, width, row, column)[k].0, Neighbourhood(height, width, row, column)[k].1)
    ensures forall i: nat, j: nat :: Touches(height, width, row, column, i, j) ==>
      Listed(Neighbourhood(height, width, row, column), i, j)
    ensures RowMajor(Neighbourhood(height, width, row, column))
  {
    var r0 := if row >= 1 then row - 1 else 0;
    var r1 := if row + 1 <= height - 1 then row + 1 else height - 1;
    var c0 := if column >= 1 then column - 1 else 0;
    var c1 := if column + 1 <= width - 1 then column + 1 else width - 1;
    CellsMeaning(r0, r1, c0, c1, height, width);
  }

  /** Taking the numbers at the given cells in turn: their sum and the grid
      left behind. */
  function TakeAll(grid: Grid, cells: seq<(nat, nat)>): (res: Extraction)
    requires Rectangular(grid)
    requires forall k :: 0 <= k < |cells| ==> cells[k].0 < |grid| && cells[k].1 < Width(grid)
    ensures Rectangular(res.grid) && OnlyDigitsBlanked(grid, res.grid)
    decreases |cells|
  {
    if |cells| == 0 then Extraction(0, grid)
    else
      var (i, j) := cells[0];
      assert |grid[i]| == Width(grid);
      var first := Extracted(grid, i, j);
      ExtractedBlanksDigits(grid, i, j);
      var rest := TakeAll(first.grid, cells[1..]);
      OnlyDigitsBlankedTransitive(grid, first.grid, rest.grid);
      Extraction(first.value + rest.value, rest.grid)
  }

  /** `calculateLocalSum`: the numbers touching the symbol at (row, column). */
  function LocalSum(grid: Grid, row: nat, column: nat): (res: Extraction)
    requires Rectangular(grid) && row < |grid| && column < Width(grid)
    ensures Rectangular(res.grid) && OnlyDigitsBlanked(grid, res.grid)
  {
    TakeAll(grid, Neighbourhood(|grid|, Width(grid), row, column))
  }

  /** `processRow` from column `from` on: each symbol of the row adds its local
      sum, on the grid as the previous symbols left it. */
  function ProcessRowFrom(grid: Grid, row: nat, from: nat): (res: Extraction)
    requires Rectangular(grid) && row < |grid| && from <= Width(grid)
    ensures Rectangular(res.grid) && OnlyDigitsBlanked(grid, res.grid)
    decreases Width(grid) - from
  {
    if from == Width(grid) then Extraction(0, grid)
    else if IsSpecial(grid[row][from]) then
      var here := LocalSum(grid, row, from);
      var rest := ProcessRowFrom(here.grid, row, from + 1);
      OnlyDigitsBlankedTransitive(grid, here.grid, rest.grid);
      Extraction(here.value + rest.value, rest.grid)
    else ProcessRowFrom(grid, row, from + 1)
  }

  /** `processMatrix` from row `from` on: the row sums, top to bottom. */
  function ProcessMatrixFrom(grid: Grid, from: nat): (res: Extraction)
    requires Rectangular(grid) && from <= |grid|
    ensures Rectangular(res.grid) && OnlyDigitsBlanked(grid, res.grid)
    decreases |grid| - from
  {
    if from == |grid| then Extraction(0, grid)
    else
      var here := ProcessRowFrom(grid, from, 0);
      var rest := ProcessMatrixFrom(here.grid, from + 1);
      OnlyDigitsBlankedTransitive(grid, here.grid, rest.grid);
      Extraction(here.value + rest.value, rest.grid)
  }

  function ProcessMatrix(grid: Grid): nat
    requires Rectangular(grid)
  {
    ProcessMatrixFrom(grid, 0).value
  }

  /** The symbols named in the tests are special; '.' and digits are not. */
  lemma SpecialCharacterExamples()
    ensures IsSpecial('*') && IsSpecial('#') && IsSpecial('@') && IsSpecial('^')
    ensures !IsSpecial('.') && !IsSpecial('1') && !IsSpecial('5') && !IsSpecial('9')
  {
  }

  /** Taking from cells that hold no digit yields 0 and changes nothing. */
  lemma {:induction false} TakeAllNoDigits(grid: Grid, cells: seq<(nat, nat)>)
    requires Rectangular(grid)
    requires forall k :: 0 <= k < |cells| ==> cells[k].0 < |grid| && cells[k].1 < Width(grid)
    requires forall k :: 0 <= k < |cells| ==>
               cells[k].1 < |grid[cells[k].0]| && !IsDigit(grid[cells[k].0][cells[k].1])
    ensures TakeAll(grid, cells) == Extraction(0, grid)
    decreases |cells|
  {
    if |cells| > 0 {
      assert |grid[cells[0].0]| == Width(grid);
      TakeAllNoDigits(grid, cells[1..]);
    }
  }

  /** The test "Special character with no number nearby": local sum 0. */
  lemma LocalSumNoNumber()
    ensures LocalSum([".1.", "..4", "*.8"], 2, 0).value == 0
  {
    var cells := NoNumberNeighbourhood();
    NoNumberTake(cells);
  }

  lemma NoNumberNeighbourhood() returns (cells: seq<(nat, nat)>)
    ensures cells == Neighbourhood(3, 3, 2, 0)
    ensures cells == [(1, 0), (1, 1), (2, 0), (2, 1)]
  {
    assert RowCells(1, 0, 1, 3) == [(1, 0), (1, 1)];
    assert RowCells(2, 0, 1, 3) == [(2, 0), (2, 1)];
    assert Cells(3, 2, 0, 1, 3, 3) == [];
    cells := Neighbourhood(3, 3, 2, 0);
  }

  lemma NoNumberTake(cells: seq<(nat, nat)>)
    requires cells == [(1, 0), (1, 1), (2, 0), (2, 1)]
    ensures TakeAll([".1.", "..4", "*.8"], cells) == Extraction(0, [".1.", "..4", "*.8"])
  {
    var g: Grid := [".1.", "..4", "*.8"];
    assert g[1][0] == '.' && g[1][1] == '.' && g[2][0] == '*' && g[2][1] == '.';
    TakeAllNoDigits(g, cells);
  }

  /** The test "Basic test": the '1' above and the "10" below add up to 11. */
  lemma LocalSumBasic()
    ensures LocalSum([".1.", ".*.", "10."], 1, 1).value == 11
  {
    var g: Grid := [".1.", ".*.", "10."];
    var cells := BasicNeighbourhood();
    BasicTakeAll(cells);
    assert |g| == 3 && Width(g) == 3;
  }

  lemma BasicTakeAll(cells: seq<(nat, nat)>)
    requires cells == [(0, 0), (0, 1), (0, 2), (1, 0), (1, 1), (1, 2), (2, 0), (2, 1), (2, 2)]
    ensures TakeAll([".1.", ".*.", "10."], cells).value == 11
  {
    var g: Grid := [".1.", ".*.", "10."];
    var g2: Grid := ["...", ".*.", "..."];
    BasicTakeRest(cells[2..]);
    BasicTakeTop();
    assert cells[1..][1..] == cells[2..];
    assert TakeAll(g, cells[1..]) == Extraction(11, g2);
    assert cells[1..] == cells[0..][1..];
  }

  lemma BasicTakeRest(cells: seq<(nat, nat)>)
    requires cells == [(0, 2), (1, 0), (1, 1), (1, 2), (2, 0), (2, 1), (2, 2)]
    ensures TakeAll(["...", ".*.", "10."], cells) == Extraction(10, ["...", ".*.", "..."])
  {
    var g1: Grid := ["...", ".*.", "10."];
    BasicTakeLower(cells[4..]);
    BasicTakeMiddle(cells[..4]);
    TakeAllAppend(g1, cells[..4], cells[4..]);
    assert cells == cells[..4] + cells[4..];
  }

  lemma BasicTakeMiddle(cells: seq<(nat, nat)>)
    requires cells == [(0, 2), (1, 0), (1, 1), (1, 2)]
    ensures TakeAll(["...", ".*.", "10."], cells) == Extraction(0, ["...", ".*.", "10."])
  {
    var g1: Grid := ["...", ".*.", "10."];
    assert g1[0][2] == '.' && g1[1][0] == '.' && g1[1][1] == '*' && g1[1][2] == '.';
    TakeAllNoDigits(g1, cells);
  }

  lemma BasicTakeLower(cells: seq<(nat, nat)>)
    requires cells == [(2, 0), (2, 1), (2, 2)]
    ensures TakeAll(["...", ".*.", "10."], cells) == Extraction(10, ["...", ".*.", "..."])
  {
    var g2: Grid := ["...", ".*.", "..."];
    BasicTakeBottom();
    TakeAllNoDigits(g2, cells[1..]);
  }

  lemma BasicNeighbourhood() returns (cells: seq<(nat, nat)>)
    ensures cells == Neighbourhood(3, 3, 1, 1)
    ensures cells == [(0, 0), (0, 1), (0, 2), (1, 0), (1, 1), (1, 2), (2, 0), (2, 1), (2, 2)]
  {
    RowOfThree(0);
    RowOfThree(1);
    RowOfThree(2);
    assert Cells(2, 2, 0, 2, 3, 3) == RowCells(2, 0, 2, 3);
    assert Cells(1, 2, 0, 2, 3, 3) == RowCells(1, 0, 2, 3) + RowCells(2, 0, 2, 3);
    cells := Neighbourhood(3, 3, 1, 1);
  }

  lemma RowOfThree(r: nat)
    ensures RowCells(r, 0, 2, 3) == [(r, 0), (r, 1), (r, 2)]
  {
    assert RowCells(r, 1, 2, 3) == [(r, 1), (r, 2)];
  }

  lemma BasicTakeTop()
    ensures Extracted([".1.", ".*.", "10."], 0, 1) == Extraction(1, ["...", ".*.", "10."])
  {
    var g: Grid := [".1.", ".*.", "10."];
    assert RunStart(g[0], 1) == 1 && RunEnd(g[0], 1) == 2;
    assert Blank(g[0], 1, 2) == "..." by {
      assert forall k :: 0 <= k < 3 ==> Blank(g[0], 1, 2)[k] == '.';
    }
    assert g[0][1..2] == "1";
    assert DecimalValue("1") == 1 by { assert "1"[..0] == ""; }
  }

  lemma BasicTakeBottom()
    ensures Extracted(["...", ".*.", "10."], 2, 0) == Extraction(10, ["...", ".*.", "..."])
  {
    var g: Grid := ["...", ".*.", "10."];
    assert RunStart(g[2], 0) == 0 && RunEnd(g[2], 0) == 2;
    assert Blank(g[2], 0, 2) == "..." by {
      assert forall k :: 0 <= k < 3 ==> Blank(g[2], 0, 2)[k] == '.';
    }
    assert g[2][0..2] == "10";
    assert DecimalValue("10") == 10 by {
      assert "10"[..1] == "1";
      assert "1"[..0] == "";
    }
  }

  /** Taking from a concatenation of cell lists takes from the first, then from
      the second on what the first left. */
  lemma {:induction false} TakeAllAppend(grid: Grid, a: seq<(nat, nat)>, b: seq<(nat, nat)>)
    requires Rectangular(grid)
    requires forall k :: 0 <= k < |a| ==> a[k].0 < |grid| && a[k].1 < Width(grid)
    requires forall k :: 0 <= k < |b| ==> b[k].0 < |grid| && b[k].1 < Width(grid)
    ensures var first := TakeAll(grid, a);
      TakeAll(grid, a + b) == Extraction(first.value + TakeAll(first.grid, b).value, TakeAll(first.grid, b).grid)
    decreases |a|
  {
    if |a| > 0 {
      assert (a + b)[1..] == a[1..] + b;
      assert |grid[a[0].0]| == Width(grid);
      var next := Extracted(grid, a[0].0, a[0].1);
      ExtractedBlanksDigits(grid, a[0].0, a[0].1);
      TakeAllAppend(next.grid, a[1..], b);
    } else {
      assert a + b == b;
    }
  }
}
