/** Day 11: Cosmic Expansion. Galaxies ('#') are located in the image, every
    galaxy-free row and every all-'.' column is widened by `extra` more rows or
    columns (1 in part 1, 999,999 in part 2), and the Manhattan distances of
    all pairs are added up (11/part1/part1.go, 11/part2.go). */
module Day11 {
  import opened Outcome

  /** A (row, column) position. */
  type Coord = (int, int)

  /** The rows or columns an empty one is widened by in part 2:
      `DISTANCE_MULTIPLIER - 1`. */
  const PartTwoExtra: nat := 1000000 - 1

  /** `abs`. */
  function Abs(x: int): (a: int)
    ensures a >= 0 && (a == x || a == -x)
  {
    if x >= 0 then x else x * -1
  }

  /** `findDistance`: the Manhattan distance. */
  function Distance(first: Coord, second: Coord): (d: int)
    ensures d >= 0
    ensures d == 0 <==> first == second
    ensures d == Abs(first.1 - second.1) + Abs(first.0 - second.0)
  {
    Abs(second.1 - first.1) + Abs(second.0 - first.0)
  }

  /** The distance is a metric: symmetric and obeying the triangle
      inequality. */
  lemma DistanceMetric(a: Coord, b: Coord, c: Coord)
    ensures Distance(a, b) == Distance(b, a)
    ensures Distance(a, c) <= Distance(a, b) + Distance(b, c)
  {
  }

  /** The columns of the first `n` characters of a line that hold a galaxy,
      left to right. */
  function HashColumns(line: string, n: nat): (cs: seq<int>)
    requires n <= |line|
    ensures forall c :: c in cs <==> 0 <= c < n && line[c] == '#'
    ensures forall a, b :: 0 <= a < b < |cs| ==> cs[a] < cs[b]
  {
    if n == 0 then []
    else
      var before := HashColumns(line, n - 1);
      assert forall a :: 0 <= a < |before| ==> before[a] in before;
      before + if line[n - 1] == '#' then [n - 1] else []
  }

  predicate GalaxyFree(line: string) {
    forall c :: 0 <= c < |line| ==> line[c] != '#'
  }

  /** How many of the first `n` lines are galaxy-free. */
  function BlankRowsBefore(lines: seq<string>, n: nat): (b: nat)
    requires n <= |lines|
    ensures b <= n
  {
    if n == 0 then 0 else BlankRowsBefore(lines, n - 1) + if GalaxyFree(lines[n - 1]) then 1 else 0
  }

  /** The row line `i` lands on once every galaxy-free line above it is
      widened by `extra`. */
  function ExpandedRow(lines: seq<string>, i: nat, extra: nat): int
    requires i <= |lines|
  {
    i + extra * BlankRowsBefore(lines, i)
  }

  /** Lower lines land on strictly lower rows. */
  lemma {:induction false} ExpandedRowMonotone(lines: seq<string>, i: nat, k: nat, extra: nat)
    requires i < k <= |lines|
    ensures ExpandedRow(lines, i, extra) < ExpandedRow(lines, k, extra)
    decreases k - i
  {
    if i + 1 < k {
      ExpandedRowMonotone(lines, i, k - 1, extra);
      ExpandedRowMonotone(lines, k - 1, k, extra);
    } else {
      assert BlankRowsBefore(lines, i) <= BlankRowsBefore(lines, k);
      MulLe(extra, BlankRowsBefore(lines, i), BlankRowsBefore(lines, k));
    }
  }

  lemma MulLe(a: nat, x: nat, y: nat)
    requires x <= y
    ensures a * x <= a * y
  {
  }

  /** The galaxies of the input in reading order, at their original
      positions. */
  function Positions(lines: seq<string>, n: nat): (ps: seq<Coord>)
    requires n <= |lines|
    ensures forall p :: p in ps <==> 0 <= p.0 < n && 0 <= p.1 < |lines[p.0]| && lines[p.0][p.1] == '#'
    ensures forall a, b :: 0 <= a < b < |ps| ==> ps[a].0 < ps[b].0 || (ps[a].0 == ps[b].0 && ps[a].1 < ps[b].1)
  {
    if n == 0 then []
    else
      var cols := HashColumns(lines[n - 1], |lines[n - 1]|);
      var before := Positions(lines, n - 1);
      var here := OnRow(n - 1, cols);
      assert forall p: Coord :: p in here <==> p.0 == n - 1 && p.1 in cols by {
        forall p: Coord | p.0 == n - 1 && p.1 in cols ensures p in here {
          var k :| 0 <= k < |cols| && cols[k] == p.1;
          assert here[k] == p;
        }
      }
      before + here
  }

  /** The galaxies of one line, on the given row. */
  function OnRow(row: int, cols: seq<int>): (found: seq<Coord>)
    ensures |found| == |cols| && forall k :: 0 <= k < |cols| ==> found[k] == (row, cols[k])
  {
    seq(|cols|, k requires 0 <= k < |cols| => (row, cols[k]))
  }

  /** The row loop of `parse`: the galaxies of the first `n` lines with their
      rows widened, and the row the next line lands on. A line without a
      galaxy moves the row on by `extra` more. */
  function ScanRows(lines: seq<string>, n: nat, extra: nat): (r: (seq<Coord>, int))
    requires n <= |lines|
    ensures r.1 == ExpandedRow(lines, n, extra)
  {
    if n == 0 then ([], 0)
    else
      var before := ScanRows(lines, n - 1, extra);
      var line := lines[n - 1];
      var cols := HashColumns(line, |line|);
      ExpandedRowStep(lines, n, extra);
      (before.0 + OnRow(before.1, cols), before.1 + (if |cols| == 0 then extra else 0) + 1)
  }

  /** A line moves the next one down by one row, and by `extra` more when it
      has no galaxy. */
  lemma ExpandedRowStep(lines: seq<string>, n: nat, extra: nat)
    requires 1 <= n <= |lines|
    ensures var cols := HashColumns(lines[n - 1], |lines[n - 1]|);
      ExpandedRow(lines, n, extra) == ExpandedRow(lines, n - 1, extra) + (if |cols| == 0 then extra else 0) + 1
  {
    GalaxyFreeNoColumns(lines[n - 1]);
    var b := BlankRowsBefore(lines, n - 1);
    assert extra * (b + 1) == extra * b + extra;
  }

  /** A line is galaxy-free exactly when it has no galaxy column. */
  lemma GalaxyFreeNoColumns(line: string)
    ensures GalaxyFree(line) <==> |HashColumns(line, |line|)| == 0
  {
    var cols := HashColumns(line, |line|);
    if |cols| > 0 {
      assert cols[0] in cols;
    }
  }

  /** `gs` is `ps` with every row widened. */
  predicate Widened(lines: seq<string>, extra: nat, gs: seq<Coord>, ps: seq<Coord>) {
    |gs| == |ps| &&
    forall k :: 0 <= k < |gs| ==>
      0 <= ps[k].0 <= |lines| && gs[k] == (ExpandedRow(lines, ps[k].0, extra), ps[k].1)
  }

  lemma WidenedAppend(lines: seq<string>, extra: nat, gs: seq<Coord>, ps: seq<Coord>, hs: seq<Coord>, qs: seq<Coord>)
    requires Widened(lines, extra, gs, ps) && Widened(lines, extra, hs, qs)
    ensures Widened(lines, extra, gs + hs, ps + qs)
  {
    forall k | 0 <= k < |gs + hs|
      ensures 0 <= (ps + qs)[k].0 <= |lines|
      ensures (gs + hs)[k] == (ExpandedRow(lines, (ps + qs)[k].0, extra), (ps + qs)[k].1)
    {
      if k >= |gs| {
        assert (gs + hs)[k] == hs[k - |gs|] && (ps + qs)[k] == qs[k - |gs|];
      } else {
        assert (gs + hs)[k] == gs[k] && (ps + qs)[k] == ps[k];
      }
    }
  }

  /** The galaxies the row loop finds are those of `Positions`, each moved
      down to its line's widened row. */
  lemma {:induction false} ScanRowsMeaning(lines: seq<string>, n: nat, extra: nat)
    requires n <= |lines|
    ensures Widened(lines, extra, ScanRows(lines, n, extra).0, Positions(lines, n))
  {
    if n > 0 {
      ScanRowsMeaning(lines, n - 1, extra);
      var cols := HashColumns(lines[n - 1], |lines[n - 1]|);
      var row := ExpandedRow(lines, n - 1, extra);
      ScanRowsStep(lines, n, extra);
      OnRowWidened(lines, n - 1, extra, cols);
      WidenedAppend(lines, extra, ScanRows(lines, n - 1, extra).0, Positions(lines, n - 1), OnRow(row, cols), OnRow(n - 1, cols));
    }
  }

  /** One more line appends its galaxies to both lists. */
  lemma ScanRowsStep(lines: seq<string>, n: nat, extra: nat)
    requires 1 <= n <= |lines|
    ensures var cols := HashColumns(lines[n - 1], |lines[n - 1]|);
      ScanRows(lines, n, extra).0 == ScanRows(lines, n - 1, extra).0 + OnRow(ExpandedRow(lines, n - 1, extra), cols) &&
      Positions(lines, n) == Positions(lines, n - 1) + OnRow(n - 1, cols)
  {
  }

  /** The galaxies of line `i` land on its widened row. */
  lemma OnRowWidened(lines: seq<string>, i: nat, extra: nat, cols: seq<int>)
    requires i < |lines|
    ensures Widened(lines, extra, OnRow(ExpandedRow(lines, i, extra), cols), OnRow(i, cols))
  {
  }

  /** Whether column `j` is all '.' from line `i` down; a line too short to
      have column `j`, met before any other character, is indexed past its
      end. */
  function BlankColumn(lines: seq<string>, j: nat, i: nat): (r: Result<bool>)
    requires i <= |lines|
    ensures r == Ok(true) <==> forall m :: i <= m < |lines| ==> j < |lines[m]| && lines[m][j] == '.'
    ensures (forall m :: i <= m < |lines| ==> j < |lines[m]|) ==> r.Ok?
    decreases |lines| - i
  {
    if i == |lines| then Ok(true)
    else if j >= |lines[i]| then Fatal("index out of range")
    else if lines[i][j] != '.' then Ok(false)
    else BlankColumn(lines, j, i + 1)
  }

  /** Column `j` can be read in every line down to its first non-'.'. */
  predicate ColumnReadable(lines: seq<string>, j: nat) {
    BlankColumn(lines, j, 0).Ok?
  }

  predicate ColumnBlank(lines: seq<string>, j: nat) {
    BlankColumn(lines, j, 0) == Ok(true)
  }

  /** The column loop of `parse`: the all-'.' columns among the first `n`
      columns of line 0, in increasing order. */
  function BlankColumns(lines: seq<string>, n: nat): (r: Result<seq<int>>)
    requires |lines| >= 1 && n <= |lines[0]|
    ensures r.Ok? <==> forall j :: 0 <= j < n ==> ColumnReadable(lines, j)
    ensures r.Ok? ==> forall j :: j in r.value <==> 0 <= j < n && ColumnBlank(lines, j)
    ensures r.Ok? ==> forall a, b :: 0 <= a < b < |r.value| ==> r.value[a] < r.value[b]
  {
    if n == 0 then Ok([])
    else
      var before := BlankColumns(lines, n - 1);
      var here := BlankColumn(lines, n - 1, 0);
      if before.Fatal? then Fatal(before.message)
      else if here.Fatal? then
        assert !ColumnReadable(lines, n - 1);
        Fatal(here.message)
      else
        assert forall a :: 0 <= a < |before.value| ==> before.value[a] in before.value;
        Ok(before.value + if here.value then [n - 1] else [])
  }

  /** The column update of `parse`: the column moves right by `extra` for
      every blank column at or left of it. */
  function ShiftColumn(col: int, blanks: seq<int>, extra: nat): (c: int)
    ensures c >= col
    ensures (forall k :: 0 <= k < |blanks| ==> blanks[k] > col) ==> c == col
    ensures (forall k :: 0 <= k < |blanks| ==> blanks[k] <= col) ==> c == col + extra * |blanks|
  {
    if |blanks| == 0 then col
    else ShiftColumn(col, blanks[..|blanks| - 1], extra) + if col >= blanks[|blanks| - 1] then extra else 0
  }

  /** Strictly increasing, as the blank columns are listed. */
  predicate Increasing(xs: seq<int>) {
    forall a, b :: 0 <= a < b < |xs| ==> xs[a] < xs[b]
  }

  /** The blank columns at or left of `col`. */
  function BlanksUpTo(blanks: seq<int>, col: int): set<int> {
    set b | b in blanks && b <= col
  }

  lemma MulSucc(a: nat, n: nat)
    ensures a * (n + 1) == a * n + a
  {
  }

  /** Listing one more column, larger than those before it, adds it to the
      blank columns at or left of `col` when it is one of them. */
  lemma BlanksUpToSnoc(init: seq<int>, last: int, col: int)
    requires forall k :: 0 <= k < |init| ==> init[k] < last
    ensures last <= col ==> |BlanksUpTo(init + [last], col)| == |BlanksUpTo(init, col)| + 1
    ensures last > col ==> BlanksUpTo(init + [last], col) == BlanksUpTo(init, col)
  {
    var upTo := BlanksUpTo(init, col);
    assert last !in upTo;
    if last <= col {
      assert BlanksUpTo(init + [last], col) == upTo + {last};
    } else {
      assert BlanksUpTo(init + [last], col) == upTo;
    }
  }

  /** With the blank columns listed once each, a column moves right by
      `extra` times the number of blank columns at or left of it. */
  lemma {:induction false} ShiftColumnCounts(col: int, blanks: seq<int>, extra: nat)
    requires Increasing(blanks)
    ensures ShiftColumn(col, blanks, extra) == col + extra * |BlanksUpTo(blanks, col)|
    decreases |blanks|
  {
    if |blanks| == 0 {
      assert BlanksUpTo(blanks, col) == {};
    } else {
      var init, last := blanks[..|blanks| - 1], blanks[|blanks| - 1];
      assert blanks == init + [last];
      assert forall k :: 0 <= k < |init| ==> init[k] == blanks[k];
      assert Increasing(init);
      ShiftColumnCounts(col, init, extra);
      BlanksUpToSnoc(init, last, col);
      MulSucc(extra, |BlanksUpTo(init, col)|);
    }
  }

  /** Columns keep their order: a column left of another stays left of it. */
  lemma {:induction false} ShiftColumnMonotone(c1: int, c2: int, blanks: seq<int>, extra: nat)
    requires c1 < c2
    ensures ShiftColumn(c1, blanks, extra) < ShiftColumn(c2, blanks, extra)
    decreases |blanks|
  {
    if |blanks| > 0 {
      ShiftColumnMonotone(c1, c2, blanks[..|blanks| - 1], extra);
    }
  }

  /** `parse`: the galaxies in reading order at their widened positions. No
      lines at all, or a line too short for a column of line 0, panics. */
  function Expand(lines: seq<string>, extra: nat): (r: Result<seq<Coord>>)
    ensures r.Ok? <==> |lines| >= 1 && BlankColumns(lines, |lines[0]|).Ok?
    ensures r.Ok? ==> |r.value| == |Positions(lines, |lines|)|
    ensures r.Ok? ==> forall k :: 0 <= k < |r.value| ==>
      var p := Positions(lines, |lines|)[k];
      r.value[k] == (ExpandedRow(lines, p.0, extra), ShiftColumn(p.1, BlankColumns(lines, |lines[0]|).value, extra))
  {
    if |lines| == 0 then Fatal("index out of range")
    else
      var blanks :- BlankColumns(lines, |lines[0]|);
      var galaxies := ScanRows(lines, |lines|, extra).0;
      ScanRowsMeaning(lines, |lines|, extra);
      Ok(seq(|galaxies|, k requires 0 <= k < |galaxies| => (galaxies[k].0, ShiftColumn(galaxies[k].1, blanks, extra))))
  }

  /** Widening keeps the galaxies' order by row and by column. */
  lemma ExpansionMonotone(lines: seq<string>, extra: nat, a: nat, b: nat)
    requires Expand(lines, extra).Ok?
    requires a < |Expand(lines, extra).value| && b < |Expand(lines, extra).value|
    ensures var ps, es := Positions(lines, |lines|), Expand(lines, extra).value;
      (ps[a].0 < ps[b].0 ==> es[a].0 < es[b].0) && (ps[a].1 < ps[b].1 ==> es[a].1 < es[b].1)
  {
    var ps := Positions(lines, |lines|);
    var blanks := BlankColumns(lines, |lines[0]|).value;
    assert ps[a] in ps && ps[b] in ps;
    if ps[a].0 < ps[b].0 {
      ExpandedRowMonotone(lines, ps[a].0, ps[b].0, extra);
    }
    if ps[a].1 < ps[b].1 {
      ShiftColumnMonotone(ps[a].1, ps[b].1, blanks, extra);
    }
  }

  /** The distances from galaxy `i` to galaxies `j` onwards. */
  function RowSum(gs: seq<Coord>, i: nat, j: nat): int
    requires i < |gs| && j <= |gs|
    decreases |gs| - j
  {
    if j == |gs| then 0 else Distance(gs[i], gs[j]) + RowSum(gs, i, j + 1)
  }

  /** The distances of all pairs whose first galaxy is `i` or later. */
  function PairsFrom(gs: seq<Coord>, i: nat): int
    requires i <= |gs|
    decreases |gs| - i
  {
    if i == |gs| then 0 else RowSum(gs, i, i + 1) + PairsFrom(gs, i + 1)
  }

  /** `sumDistances`: the distances of the unordered pairs added up, pair by
      pair in the order of the two loops. */
  method SumDistances(gs: seq<Coord>) returns (sum: int)
    ensures sum == PairsFrom(gs, 0)
    ensures sum >= 0
  {
    sum := 0;
    for i := 0 to |gs|
      invariant sum + PairsFrom(gs, i) == PairsFrom(gs, 0)
    {
      for j := i + 1 to |gs|
        invariant sum + RowSum(gs, i, j) + PairsFrom(gs, i + 1) == PairsFrom(gs, 0)
      {
        sum := sum + Distance(gs[i], gs[j]);
      }
    }
    PairsNonNegative(gs, 0);
  }

  lemma {:induction false} PairsNonNegative(gs: seq<Coord>, i: nat)
    requires i <= |gs|
    ensures PairsFrom(gs, i) >= 0
    decreases |gs| - i
  {
    if i < |gs| {
      RowSumNonNegative(gs, i, i + 1);
      PairsNonNegative(gs, i + 1);
    }
  }

  lemma {:induction false} RowSumNonNegative(gs: seq<Coord>, i: nat, j: nat)
    requires i < |gs| && j <= |gs|
    ensures RowSum(gs, i, j) >= 0
    decreases |gs| - j
  {
    if j < |gs| {
      RowSumNonNegative(gs, i, j + 1);
    }
  }

  /** The distances from every galaxy to `g`. */
  function DistancesTo(gs: seq<Coord>, g: Coord, n: nat): int
    requires n <= |gs|
  {
    if n == 0 then 0 else DistancesTo(gs, g, n - 1) + Distance(gs[n - 1], g)
  }

  lemma {:induction false} RowSumAppend(gs: seq<Coord>, g: Coord, i: nat, j: nat)
    requires i < |gs| && j <= |gs|
    ensures RowSum(gs + [g], i, j) == RowSum(gs, i, j) + Distance(gs[i], g)
    decreases |gs| - j
  {
    var hs := gs + [g];
    if j < |gs| {
      RowSumAppend(gs, g, i, j + 1);
      assert hs[j] == gs[j] && hs[i] == gs[i];
    } else {
      assert RowSum(hs, i, j + 1) == 0;
      assert hs[j] == g && hs[i] == gs[i];
    }
  }

  /** One more galaxy adds its distances to all earlier ones: the pair sum
      does not depend on the loops' order of summation. */
  lemma {:induction false} PairsAppend(gs: seq<Coord>, g: Coord, i: nat)
    requires i <= |gs|
    ensures PairsFrom(gs + [g], i) == PairsFrom(gs, i) + DistancesTo(gs, g, |gs|) - DistancesTo(gs, g, i)
    decreases |gs| - i
  {
    var hs := gs + [g];
    if i < |gs| {
      PairsAppend(gs, g, i + 1);
      RowSumAppend(gs, g, i, i + 1);
      assert DistancesTo(gs, g, i + 1) == DistancesTo(gs, g, i) + Distance(gs[i], g);
    } else {
      assert PairsFrom(hs, i + 1) == 0 && RowSum(hs, i, i + 1) == 0;
    }
  }

  /** Both answers: the pair distances of the widened galaxies; `extra` is
      1 in part 1 and `PartTwoExtra` in part 2. */
  method SolveGalaxies(lines: seq<string>, extra: nat) returns (r: Result<int>)
    ensures r.Ok? <==> Expand(lines, extra).Ok?
    ensures r.Ok? ==> r.value == PairsFrom(Expand(lines, extra).value, 0) && r.value >= 0
  {
    var galaxies :- Expand(lines, extra);
    var sum := SumDistances(galaxies);
    return Ok(sum);
  }

  /** The six distances of the program's own test table. */
  lemma DistanceExamples()
    ensures Distance((6, 1), (11, 5)) == 9
    ensures Distance((0, 4), (10, 9)) == 15
    ensures Distance((2, 0), (7, 12)) == 17
    ensures Distance((11, 0), (11, 5)) == 5
    ensures Distance((0, 4), (1, 9)) == 6
    ensures Distance((0, 4), (2, 0)) == 6
  {
  }
}
