/** Day 13: Point of Incidence. A pattern of '.' and '#' has a mirror
    between two neighbouring rows (or columns) when every pair of rows at equal
    distance from it matches. Part 1 compares rows through a checksum and
    counts 100 per row above a horizontal mirror plus one per column left of a
    vertical mirror; part 2 looks for mirrors that need exactly one character
    changed, trying rows first and then the transposed pattern
    (13/part1/part1.go, 13/part2.go). */
module Day13 {
  import opened Outcome

  /** Every pair of positions adding up to `sum` holds equal elements. */
  ghost predicate Symmetric<T>(s: seq<T>, sum: int) {
    forall a, b :: 0 <= a < b < |s| && a + b == sum ==> s[a] == s[b]
  }

  /** A mirror lies between positions `m - 1` and `m`: positions `m - 1 - k`
      and `m + k` hold equal elements for every `k` that keeps both inside. */
  ghost predicate Mirror<T>(s: seq<T>, m: int) {
    Symmetric(s, 2 * m - 1)
  }

  /** `isParallel`: checks the pairs about the midpoint of `index1` and
      `index2`, first outwards to the nearer edge and then inwards to the
      midpoint; -1 if any pair differs, otherwise the position after the
      midpoint. */
  method IsParallel<T(==)>(index1: int, index2: int, s: seq<T>) returns (r: int)
    requires 0 <= index1 < index2 < |s|
    ensures r == -1 <==> !Symmetric(s, index1 + index2)
    ensures r != -1 ==> r == (index1 + index2 + 1) / 2
  {
    var sum := index1 + index2;
    var i, j := index1, index2;
    while 0 <= i && j < |s|
      invariant i + j == sum && -1 <= i <= index1
      invariant forall a :: i < a <= index1 && sum - a < |s| ==> s[a] == s[sum - a]
      decreases i + 1
    {
      if s[i] != s[j] {
        return -1;
      }
      i, j := i - 1, j + 1;
    }
    assert forall a :: 0 <= a <= index1 && sum - a < |s| ==> s[a] == s[sum - a];
    i, j := index1 + 1, index2 - 1;
    while i < j
      invariant i + j == sum && index1 + 1 <= i && j <= index2 - 1 && i <= j + 1
      invariant forall a :: index1 < a < i ==> s[a] == s[sum - a]
      decreases j - i
    {
      if s[i] != s[j] {
        return -1;
      }
      i, j := i + 1, j - 1;
    }
    return if i > j then i else j;
  }

  /** `calculateValue`: 100 per row above a horizontal mirror, one per column
      left of a vertical one. */
  function CalculateValue(index: int, isRow: bool): int {
    if isRow then index * 100 else index
  }

  /** The first row of the search whose odd-gap pairs reach the mirror after
      `m - 1`: the pairs are `(i, 2m - 1 - i)`. */
  function Reach(n: int, m: int): int {
    if 2 * m - n > 0 then 2 * m - n else 0
  }

  /** The search over pairs `(i, j)`, `i` outer and `j` inner, meets the mirror
      after `m1 - 1` before the one after `m2 - 1`. */
  predicate Before(n: int, m1: int, m2: int) {
    Reach(n, m1) < Reach(n, m2) || (Reach(n, m1) == Reach(n, m2) && m1 < m2)
  }

  /** `m` is the first mirror the search meets. */
  ghost predicate FirstMirror<T>(s: seq<T>, m: int) {
    1 <= m < |s| && Mirror(s, m) &&
    forall other :: 1 <= other < |s| && Before(|s|, other, m) ==> !Mirror(s, other)
  }

  /** There is at most one first mirror. */
  lemma FirstMirrorUnique<T>(s: seq<T>, m1: int, m2: int)
    requires FirstMirror(s, m1) && FirstMirror(s, m2)
    ensures m1 == m2
  {
  }

  ghost predicate NoMirror<T>(s: seq<T>) {
    forall m :: 1 <= m < |s| ==> !Mirror(s, m)
  }

  /** The value of one direction: 0 without a mirror, else that of the first
      mirror. */
  ghost predicate LineValue<T>(s: seq<T>, isRow: bool, v: int) {
    (NoMirror(s) && v == 0) || exists m :: FirstMirror(s, m) && v == CalculateValue(m, isRow)
  }

  /** The value of one direction as a number: that of the first mirror, or 0. */
  ghost function MirrorValue<T>(s: seq<T>, isRow: bool): int {
    if exists m :: FirstMirror(s, m) then
      var m :| FirstMirror(s, m);
      CalculateValue(m, isRow)
    else 0
  }

  /** A direction has exactly one value. */
  lemma LineValueIsMirrorValue<T>(s: seq<T>, isRow: bool, v: int)
    requires LineValue(s, isRow, v)
    ensures v == MirrorValue(s, isRow)
  {
    if exists m :: FirstMirror(s, m) {
      var m :| FirstMirror(s, m) && v == CalculateValue(m, isRow);
      var m' :| FirstMirror(s, m') && MirrorValue(s, isRow) == CalculateValue(m', isRow);
      FirstMirrorUnique(s, m, m');
    }
  }

  /** `findParallelLineValue`: tries the odd-gap pairs `(i, j)` in order and
      scores the first mirror found; 0 if there is none. */
  method FindParallelLineValue<T(==)>(line: seq<T>, isRow: bool) returns (v: int)
    ensures v == 0 <==> NoMirror(line)
    ensures LineValue(line, isRow, v)
  {
    var n := |line|;
    for i := 0 to n
      invariant forall m :: 1 <= m < n && Reach(n, m) < i ==> !Mirror(line, m)
    {
      var parallelPoint := TryMirrorPartners(line, i);
      if parallelPoint != -1 {
        return CalculateValue(parallelPoint, isRow);
      }
    }
    return 0;
  }

  /** The inner loop of `findParallelLineValue`: the partners `j` of `i` at
      odd gaps, in order; the first mirror met, or -1 when none is reached
      first from `i`. */
  method TryMirrorPartners<T(==)>(line: seq<T>, i: int) returns (parallelPoint: int)
    requires 0 <= i < |line|
    requires forall m :: 1 <= m < |line| && Reach(|line|, m) < i ==> !Mirror(line, m)
    ensures parallelPoint != -1 ==> FirstMirror(line, parallelPoint)
    ensures parallelPoint == -1 ==> forall m :: 1 <= m < |line| && Reach(|line|, m) <= i ==> !Mirror(line, m)
  {
    var n := |line|;
    var j := i + 1;
    while j < n
      invariant j > i && (j - i) % 2 == 1
      invariant forall m :: 1 <= m < n && Reach(n, m) == i && 2 * m - 1 < i + j ==> !Mirror(line, m)
      decreases n - j
    {
      ghost var m := (i + j + 1) / 2;
      assert i + j == 2 * m - 1 && 1 <= m < n && Reach(n, m) <= i;
      if line[i] == line[j] {
        parallelPoint := IsParallel(i, j, line);
        if parallelPoint != -1 {
          MirrorFirst(line, i, j, m);
          return;
        }
      }
      j := j + 2;
    }
    assert forall m :: 1 <= m < n && Reach(n, m) == i ==> 2 * m - 1 < i + j;
    return -1;
  }

  /** A mirror met at the pair `(i, j)` is the first one when the rows before
      `i` and the partners of `i` before `j` met none. */
  lemma MirrorFirst<T>(line: seq<T>, i: int, j: int, m: int)
    requires 0 <= i < j < |line| && i + j == 2 * m - 1 && Reach(|line|, m) <= i && Mirror(line, m)
    requires forall m :: 1 <= m < |line| && Reach(|line|, m) < i ==> !Mirror(line, m)
    requires forall m :: 1 <= m < |line| && Reach(|line|, m) == i && 2 * m - 1 < i + j ==> !Mirror(line, m)
    ensures FirstMirror(line, m)
  {
    assert Reach(|line|, m) == i;
  }

  /** `invertMatrix`: the columns of the pattern as strings; an empty pattern,
      or a line shorter than the first, is indexed past its end. */
  function Transpose(pattern: seq<string>): (r: Result<seq<string>>)
    ensures r.Ok? <==> |pattern| >= 1 && forall j :: 0 <= j < |pattern| ==> |pattern[j]| >= |pattern[0]|
    ensures r.Ok? ==> |r.value| == |pattern[0]|
    ensures r.Ok? ==> forall i :: 0 <= i < |r.value| ==> |r.value[i]| == |pattern|
    ensures r.Ok? ==> forall i, j :: 0 <= i < |r.value| && 0 <= j < |pattern| ==> r.value[i][j] == pattern[j][i]
  {
    if |pattern| == 0 then Fatal("index out of range")
    else if forall j :: 0 <= j < |pattern| ==> |pattern[j]| >= |pattern[0]| then
      Ok(seq(|pattern[0]|, i requires 0 <= i < |pattern[0]| =>
        seq(|pattern|, j requires 0 <= j < |pattern| => pattern[j][i])))
    else Fatal("index out of range")
  }

  /** All lines as long as the first. */
  predicate Rectangular(pattern: seq<string>) {
    |pattern| >= 1 && forall j :: 0 <= j < |pattern| ==> |pattern[j]| == |pattern[0]|
  }

  /** Transposing a rectangular pattern twice gives it back. */
  lemma TransposeTwice(pattern: seq<string>)
    requires Rectangular(pattern) && |pattern[0]| >= 1
    ensures Transpose(pattern).Ok? && Transpose(Transpose(pattern).value) == Ok(pattern)
  {
    var t := Transpose(pattern).value;
    assert t[0] == t[0] && |t[0]| == |pattern|;
    var tt := Transpose(t).value;
    assert |tt| == |pattern|;
    forall j | 0 <= j < |pattern|
      ensures tt[j] == pattern[j]
    {
      assert |tt[j]| == |pattern[j]|;
      forall i | 0 <= i < |pattern[j]|
        ensures tt[j][i] == pattern[j][i]
      {
        assert tt[j][i] == t[i][j];
      }
    }
    assert tt == pattern;
  }

  /** Comparing checksums finds the same mirrors as comparing the lines, as
      long as distinct lines have distinct checksums. */
  lemma ChecksumMirror(lines: seq<string>, checksum: string -> int, m: int)
    requires forall x, y :: checksum(x) == checksum(y) ==> x == y
    ensures Mirror(Checksums(lines, checksum), m) <==> Mirror(lines, m)
  {
    var hs := Checksums(lines, checksum);
    if Mirror(hs, m) {
      forall a, b | 0 <= a < b < |lines| && a + b == 2 * m - 1
        ensures lines[a] == lines[b]
      {
        assert hs[a] == hs[b];
      }
    }
  }

  /** `parseRows` (and `parseColumns` on the transposed pattern): one checksum
      per line, in order. */
  function Checksums(lines: seq<string>, checksum: string -> int): (hs: seq<int>)
    ensures |hs| == |lines| && forall k :: 0 <= k < |lines| ==> hs[k] == checksum(lines[k])
  {
    seq(|lines|, k requires 0 <= k < |lines| => checksum(lines[k]))
  }

  /** Part 1's `computePattern`: the row value plus the column value, rows and
      columns compared through `checksum` (the program's 32-bit FNV-1a). */
  method ComputePattern(pattern: seq<string>, checksum: string -> int) returns (r: Result<int>)
    ensures r.Ok? <==> Transpose(pattern).Ok?
    ensures r.Ok? ==> exists a, b ::
      r.value == a + b && LineValue(Checksums(pattern, checksum), true, a) &&
      LineValue(Checksums(Transpose(pattern).value, checksum), false, b)
    ensures r == PatternValue(pattern, checksum)
  {
    var columns :- Transpose(pattern);
    var a := FindParallelLineValue(Checksums(pattern, checksum), true);
    var b := FindParallelLineValue(Checksums(columns, checksum), false);
    LineValueIsMirrorValue(Checksums(pattern, checksum), true, a);
    LineValueIsMirrorValue(Checksums(columns, checksum), false, b);
    return Ok(a + b);
  }

  /** The value of a pattern: the row value plus the column value, each that
      of the first mirror or 0; a pattern that cannot be transposed panics. */
  ghost function PatternValue(pattern: seq<string>, checksum: string -> int): (r: Result<int>)
    ensures r.Ok? <==> Transpose(pattern).Ok?
  {
    match Transpose(pattern)
    case Fatal(msg) => Fatal(msg)
    case Ok(columns) =>
      Ok(MirrorValue(Checksums(pattern, checksum), true) + MirrorValue(Checksums(columns, checksum), false))
  }

  /** The values of patterns that all transpose, in order. */
  ghost function PatternValues(patterns: seq<seq<string>>, checksum: string -> int): (vs: seq<int>)
    requires forall k :: 0 <= k < |patterns| ==> Transpose(patterns[k]).Ok?
    ensures |vs| == |patterns|
  {
    seq(|patterns|, k requires 0 <= k < |patterns| => PatternValue(patterns[k], checksum).value)
  }

  /** One more pattern adds its value. */
  lemma PatternValuesStep(patterns: seq<seq<string>>, k: nat, checksum: string -> int)
    requires k < |patterns| && forall q :: 0 <= q <= k ==> Transpose(patterns[q]).Ok?
    ensures Sum(PatternValues(patterns[..k + 1], checksum)) ==
      Sum(PatternValues(patterns[..k], checksum)) + PatternValue(patterns[k], checksum).value
  {
    var now := PatternValues(patterns[..k + 1], checksum);
    assert now[..k] == PatternValues(patterns[..k], checksum);
  }

  /** The patterns of the input as the program's `main` gathers them: every
      empty line closes the pattern so far (even an empty one), and the lines
      after the last empty line form a final pattern when there are any. */
  function Gather(lines: seq<string>): (r: (seq<seq<string>>, seq<string>))
  {
    if |lines| == 0 then ([], [])
    else
      var before := Gather(lines[..|lines| - 1]);
      var line := lines[|lines| - 1];
      if |line| != 0 then (before.0, before.1 + [line]) else (before.0 + [before.1], [])
  }

  function Patterns(lines: seq<string>): seq<seq<string>> {
    var g := Gather(lines);
    if |g.1| != 0 then g.0 + [g.1] else g.0
  }

  function Flatten(groups: seq<seq<string>>): seq<string> {
    if |groups| == 0 then [] else Flatten(groups[..|groups| - 1]) + groups[|groups| - 1]
  }

  function NonEmpty(lines: seq<string>): seq<string> {
    if |lines| == 0 then []
    else NonEmpty(lines[..|lines| - 1]) + if |lines[|lines| - 1]| != 0 then [lines[|lines| - 1]] else []
  }

  function CountEmpty(lines: seq<string>): nat {
    if |lines| == 0 then 0
    else CountEmpty(lines[..|lines| - 1]) + if |lines[|lines| - 1]| == 0 then 1 else 0
  }

  lemma FlattenAppend(groups: seq<seq<string>>, g: seq<string>)
    ensures Flatten(groups + [g]) == Flatten(groups) + g
  {
    assert (groups + [g])[..|groups|] == groups;
  }

  /** Gathering loses no line and adds none: the patterns hold the non-empty
      lines in order, one pattern per empty line plus a final one when the
      input does not end with an empty line. */
  lemma {:induction false} GatherMeaning(lines: seq<string>)
    ensures Flatten(Gather(lines).0) + Gather(lines).1 == NonEmpty(lines)
    ensures |Gather(lines).0| == CountEmpty(lines)
    ensures |Gather(lines).1| != 0 <==> |lines| > 0 && |lines[|lines| - 1]| != 0
  {
    if |lines| > 0 {
      var prefix := lines[..|lines| - 1];
      GatherMeaning(prefix);
      var before := Gather(prefix);
      if |lines[|lines| - 1]| == 0 {
        FlattenAppend(before.0, before.1);
      }
    }
  }

  lemma PatternsMeaning(lines: seq<string>)
    ensures Flatten(Patterns(lines)) == NonEmpty(lines)
    ensures |Patterns(lines)| == CountEmpty(lines) + if |lines| > 0 && |lines[|lines| - 1]| != 0 then 1 else 0
  {
    GatherMeaning(lines);
    var g := Gather(lines);
    FlattenAppend(g.0, g.1);
  }

  /** Part 1's answer: the pattern values added up; an empty pattern (two
      empty lines in a row) or a ragged one panics. */
  method Summarize(lines: seq<string>, checksum: string -> int) returns (r: Result<int>)
    ensures r.Ok? <==> forall k :: 0 <= k < |Patterns(lines)| ==> Transpose(Patterns(lines)[k]).Ok?
    ensures r.Ok? ==> r.value == Sum(PatternValues(Patterns(lines), checksum))
  {
    var patterns := Patterns(lines);
    var sum := 0;
    for k := 0 to |patterns|
      invariant forall q :: 0 <= q < k ==> Transpose(patterns[q]).Ok?
      invariant sum == Sum(PatternValues(patterns[..k], checksum))
    {
      var v := ComputePattern(patterns[k], checksum);
      if v.Fatal? {
        return Fatal(v.message);
      }
      PatternValuesStep(patterns, k, checksum);
      sum := sum + v.value;
    }
    assert patterns[..|patterns|] == patterns;
    return Ok(sum);
  }

  // Part 2

  /** The pair `(a, sum - a)` lies inside and differs. */
  predicate Mismatch(s: seq<string>, sum: int, a: int) {
    0 <= a < sum - a < |s| && s[a] != s[sum - a]
  }

  /** `isAlmostParallel`'s last loop over the two differing lines: the first
      differing character is remembered in `marked`, whose unset value is '0';
      a second difference refuses the pair, and a second line shorter than the
      first is indexed past its end. */
  function SmudgeScan(u1: string, u2: string, k: nat, marked: char): Result<bool>
    requires k <= |u1|
    decreases |u1| - k
  {
    if k == |u1| then Ok(true)
    else if k >= |u2| then Fatal("index out of range")
    else if u1[k] != u2[k] then
      if marked == '0' then SmudgeScan(u1, u2, k + 1, u1[k]) else Ok(false)
    else SmudgeScan(u1, u2, k + 1, marked)
  }

  /** The two lines differ in at most one of the positions before `n`. */
  predicate AtMostOneDiff(u1: string, u2: string, n: int)
    requires 0 <= n <= |u1| && n <= |u2|
  {
    forall x, y :: 0 <= x < y < n && u1[x] != u2[x] ==> u1[y] == u2[y]
  }

  predicate NoDiff(u1: string, u2: string, n: int)
    requires 0 <= n <= |u1| && n <= |u2|
  {
    forall x :: 0 <= x < n ==> u1[x] == u2[x]
  }

  /** For lines of equal length over an alphabet without '0', the scan accepts
      exactly the lines that differ in at most one position. */
  lemma {:induction false} SmudgeScanMeaning(u1: string, u2: string, k: nat, marked: char)
    requires |u1| == |u2| && k <= |u1| && '0' !in u1
    requires marked == '0' <==> NoDiff(u1, u2, k)
    requires AtMostOneDiff(u1, u2, k)
    ensures SmudgeScan(u1, u2, k, marked) == Ok(AtMostOneDiff(u1, u2, |u1|))
    decreases |u1| - k
  {
    if k < |u1| {
      if u1[k] != u2[k] {
        if marked == '0' {
          assert u1[k] in u1;
          assert !NoDiff(u1, u2, k + 1);
          assert AtMostOneDiff(u1, u2, k + 1);
          SmudgeScanMeaning(u1, u2, k + 1, u1[k]);
        } else {
          var x :| 0 <= x < k && u1[x] != u2[x];
          assert !AtMostOneDiff(u1, u2, |u1|) by {
            assert 0 <= x < k < |u1| && u1[x] != u2[x] && u1[k] != u2[k];
          }
        }
      } else {
        assert NoDiff(u1, u2, k + 1) <==> NoDiff(u1, u2, k);
        assert AtMostOneDiff(u1, u2, k + 1);
        SmudgeScanMeaning(u1, u2, k + 1, marked);
      }
    }
  }

  /** The verdict on the pairs about `sum`: no pair differing, or two, refuse
      it; a single differing pair is settled by `SmudgeScan`. */
  ghost function Smudged(s: seq<string>, sum: int): Result<bool> {
    if !exists a :: Mismatch(s, sum, a) then Ok(false)
    else
      var a :| Mismatch(s, sum, a);
      if exists b :: Mismatch(s, sum, b) && b != a then Ok(false)
      else SmudgeScan(s[a], s[sum - a], 0, '0')
  }

  /** The verdict follows from the one differing pair, or from there being
      none. */
  lemma SmudgedSeen(s: seq<string>, sum: int, seen: Option<int>)
    requires seen.Some? ==> Mismatch(s, sum, seen.value)
    requires forall a :: Mismatch(s, sum, a) ==> seen == Some(a)
    ensures Smudged(s, sum) == if seen.None? then Ok(false) else SmudgeScan(s[seen.value], s[sum - seen.value], 0, '0')
  {
  }

  /** A verdict as `isAlmostParallel` reports it for mirror position `m`. */
  function Report(v: Result<bool>, m: int): (r: Result<int>) {
    match v
    case Ok(b) => Ok(if b then m else -1)
    case Fatal(msg) => Fatal(msg)
  }

  predicate AllNonEmpty(s: seq<string>) {
    forall k :: 0 <= k < |s| ==> |s[k]| > 0
  }

  /** The mismatches among the pairs `(a, sum - a)` with `lo <= a < hi` are
      exactly the one recorded in `seen`, or none. */
  ghost predicate Recorded(s: seq<string>, sum: int, lo: int, hi: int, seen: Option<int>) {
    (seen.Some? ==> lo <= seen.value < hi && Mismatch(s, sum, seen.value)) &&
    forall a :: lo <= a < hi && Mismatch(s, sum, a) ==> seen == Some(a)
  }

  /** What the program keeps of the differing pair: the two lines, the first
      of them empty while none was found. */
  ghost predicate Holds(s: seq<string>, sum: int, seen: Option<int>, u1: string, u2: string) {
    (seen.None? <==> |u1| == 0) &&
    (seen.Some? ==> 0 <= seen.value < sum - seen.value < |s| && u1 == s[seen.value] && u2 == s[sum - seen.value])
  }

  /** `isAlmostParallel`: finds the pair about the midpoint of `index1` and
      `index2` that differs, refusing the midpoint when no pair or two pairs
      differ or the differing lines differ in more than one character. The
      program recognises "none found yet" by an empty first line, so the
      results are stated for patterns without empty lines. */
  method IsAlmostParallel(index1: int, index2: int, s: seq<string>) returns (r: Result<int>)
    requires 0 <= index1 < index2 < |s|
    ensures r.Ok? && r.value != -1 ==> r.value == (index1 + index2 + 1) / 2 >= 1
    ensures Symmetric(s, index1 + index2) ==> r == Ok(-1)
    ensures AllNonEmpty(s) ==> r == Report(Smudged(s, index1 + index2), (index1 + index2 + 1) / 2)
  {
    var u1, u2, twice;
    ghost var seen;
    u1, u2, seen, twice := ScanOutward(index1, index2, s);
    if twice {
      return Ok(-1);
    }
    var mid;
    u1, u2, seen, twice, mid := ScanInward(index1, index2, s, u1, u2, seen);
    if twice {
      return Ok(-1);
    }
    if AllNonEmpty(s) {
      SmudgedSeen(s, index1 + index2, seen);
    }
    if |u1| == 0 {
      return Ok(-1);
    }
    var scan := SmudgeScan(u1, u2, 0, '0');
    r := Report(scan, mid);
  }

  /** `isAlmostParallel`'s first loop: the pairs from `(index1, index2)`
      outwards. `twice` says a second differing pair stopped it. */
  method ScanOutward(index1: int, index2: int, s: seq<string>)
    returns (u1: string, u2: string, ghost seen: Option<int>, twice: bool)
    requires 0 <= index1 < index2 < |s|
    ensures Symmetric(s, index1 + index2) ==> !twice && |u1| == 0
    ensures AllNonEmpty(s) && twice ==> Smudged(s, index1 + index2) == Ok(false)
    ensures AllNonEmpty(s) && !twice ==>
      Recorded(s, index1 + index2, 0, index1 + 1, seen) && Holds(s, index1 + index2, seen, u1, u2)
  {
    var sum := index1 + index2;
    u1, u2, seen, twice := "", "", None, false;
    var i, j := index1, index2;
    while 0 <= i && j < |s|
      invariant i + j == sum && -1 <= i <= index1
      invariant Symmetric(s, sum) ==> |u1| == 0
      invariant AllNonEmpty(s) ==> Recorded(s, sum, i + 1, index1 + 1, seen) && Holds(s, sum, seen, u1, u2)
      decreases i + 1
    {
      if s[i] != s[j] {
        assert Mismatch(s, sum, i);
        if |u1| == 0 {
          u1, u2 := s[i], s[j];
          seen := Some(i);
        } else {
          assert AllNonEmpty(s) ==> seen.Some? && seen.value != i && Smudged(s, sum) == Ok(false);
          twice := true;
          return;
        }
      }
      i, j := i - 1, j + 1;
    }
  }

  /** `isAlmostParallel`'s second loop: the pairs from `(index1 + 1,
      index2 - 1)` inwards, continuing what the first loop found; `mid` is
      where the two indices meet. */
  method ScanInward(index1: int, index2: int, s: seq<string>, u1: string, u2: string, ghost seen: Option<int>)
    returns (u1': string, u2': string, ghost seen': Option<int>, twice: bool, mid: int)
    requires 0 <= index1 < index2 < |s|
    requires Symmetric(s, index1 + index2) ==> |u1| == 0
    requires AllNonEmpty(s) ==>
      Recorded(s, index1 + index2, 0, index1 + 1, seen) && Holds(s, index1 + index2, seen, u1, u2)
    ensures mid == (index1 + index2 + 1) / 2
    ensures Symmetric(s, index1 + index2) ==> !twice && |u1'| == 0
    ensures AllNonEmpty(s) && twice ==> Smudged(s, index1 + index2) == Ok(false)
    ensures AllNonEmpty(s) && !twice ==>
      Holds(s, index1 + index2, seen', u1', u2') &&
      (seen'.Some? ==> Mismatch(s, index1 + index2, seen'.value)) &&
      forall a :: Mismatch(s, index1 + index2, a) ==> seen' == Some(a)
  {
    var sum := index1 + index2;
    u1', u2', seen', twice := u1, u2, seen, false;
    var i, j := index1 + 1, index2 - 1;
    while i < j
      invariant i + j == sum && index1 + 1 <= i && j <= index2 - 1 && i <= j + 1
      invariant Symmetric(s, sum) ==> |u1'| == 0
      invariant AllNonEmpty(s) ==> Recorded(s, sum, 0, i, seen') && Holds(s, sum, seen', u1', u2')
      decreases j - i
    {
      if s[i] != s[j] {
        assert Mismatch(s, sum, i);
        if |u1'| == 0 {
          u1', u2' := s[i], s[j];
          seen' := Some(i);
        } else {
          assert AllNonEmpty(s) ==> seen'.Some? && seen'.value != i && Smudged(s, sum) == Ok(false);
          twice := true;
          mid := (sum + 1) / 2;
          return;
        }
      }
      i, j := i + 1, j - 1;
    }
    mid := if i > j then i else j;
  }

  /** The verdict on the mirror after `m - 1` is not a plain refusal. */
  ghost predicate Hit(s: seq<string>, m: int) {
    Smudged(s, 2 * m - 1) != Ok(false)
  }

  /** `m` is the first mirror the search settles on, or panics at. */
  ghost predicate FirstHit(s: seq<string>, m: int) {
    1 <= m < |s| && Hit(s, m) &&
    forall other :: 1 <= other < |s| && Before(|s|, other, m) ==> !Hit(s, other)
  }

  /** There is at most one first hit. */
  lemma FirstHitUnique(s: seq<string>, m1: int, m2: int)
    requires FirstHit(s, m1) && FirstHit(s, m2)
    ensures m1 == m2
  {
  }

  /** What the search for a smudged mirror reports: the verdict on the first
      hit, or -1 when there is none. */
  ghost function HitReport(s: seq<string>): Result<int> {
    if exists m :: FirstHit(s, m) then
      var m :| FirstHit(s, m);
      Report(Smudged(s, 2 * m - 1), m)
    else Ok(-1)
  }

  /** `findHorizontalParallelLine`: tries the odd-gap pairs in order and
      returns the first mirror position found, -1 if none. */
  method FindHorizontalParallelLine(pattern: seq<string>) returns (r: Result<int>)
    ensures r.Ok? && r.value != -1 ==> 1 <= r.value < |pattern|
    ensures AllNonEmpty(pattern) ==> (r == Ok(-1) <==> forall m :: 1 <= m < |pattern| ==> !Hit(pattern, m))
    ensures AllNonEmpty(pattern) && r != Ok(-1) ==>
      exists m :: FirstHit(pattern, m) && r == Report(Smudged(pattern, 2 * m - 1), m)
    ensures AllNonEmpty(pattern) ==> r == HitReport(pattern)
  {
    var n := |pattern|;
    for i := 0 to n
      invariant AllNonEmpty(pattern) ==> forall m :: 1 <= m < n && Reach(n, m) < i ==> !Hit(pattern, m)
    {
      var found;
      r, found := TryPartners(pattern, i);
      if found {
        if AllNonEmpty(pattern) {
          HitReportOf(pattern, r);
        }
        return;
      }
    }
    return Ok(-1);
  }

  /** A report on some first hit is the report on the first hit. */
  lemma HitReportOf(pattern: seq<string>, r: Result<int>)
    requires exists m :: FirstHit(pattern, m) && r == Report(Smudged(pattern, 2 * m - 1), m)
    ensures r == HitReport(pattern)
  {
    var m :| FirstHit(pattern, m) && r == Report(Smudged(pattern, 2 * m - 1), m);
    var m' :| FirstHit(pattern, m') && HitReport(pattern) == Report(Smudged(pattern, 2 * m' - 1), m');
    FirstHitUnique(pattern, m, m');
  }

  /** A hit at the pair `(i, j)` is the first one when the rows before `i`
      and the partners of `i` before `j` had none. */
  lemma HitFirst(pattern: seq<string>, i: int, j: int, m: int)
    requires 0 <= i < j < |pattern| && i + j == 2 * m - 1 && Reach(|pattern|, m) == i && Hit(pattern, m)
    requires forall m :: 1 <= m < |pattern| && Reach(|pattern|, m) < i ==> !Hit(pattern, m)
    requires forall m :: 1 <= m < |pattern| && Reach(|pattern|, m) == i && 2 * m - 1 < i + j ==> !Hit(pattern, m)
    ensures FirstHit(pattern, m)
  {
  }

  /** The inner loop of `findHorizontalParallelLine`: the partners `j` of `i`
      at odd gaps, in order. `found` says the search stopped at one of them;
      otherwise no mirror reached first from `i` is a hit. */
  method TryPartners(pattern: seq<string>, i: int) returns (r: Result<int>, found: bool)
    requires 0 <= i < |pattern|
    requires AllNonEmpty(pattern) ==>
      forall m :: 1 <= m < |pattern| && Reach(|pattern|, m) < i ==> !Hit(pattern, m)
    ensures found ==> r != Ok(-1) && (r.Ok? ==> 1 <= r.value < |pattern|)
    ensures found && AllNonEmpty(pattern) ==>
      exists m :: FirstHit(pattern, m) && r == Report(Smudged(pattern, 2 * m - 1), m)
    ensures !found && AllNonEmpty(pattern) ==>
      forall m :: 1 <= m < |pattern| && Reach(|pattern|, m) <= i ==> !Hit(pattern, m)
  {
    var n := |pattern|;
    var j := i + 1;
    while j < n
      invariant j > i && (j - i) % 2 == 1
      invariant AllNonEmpty(pattern) ==>
        forall m :: 1 <= m < n && Reach(n, m) == i && 2 * m - 1 < i + j ==> !Hit(pattern, m)
      decreases n - j
    {
      ghost var m := (i + j + 1) / 2;
      assert i + j == 2 * m - 1 && 1 <= m < n && Reach(n, m) <= i;
      var parallelPoint := IsAlmostParallel(i, j, pattern);
      if parallelPoint != Ok(-1) {
        if AllNonEmpty(pattern) {
          HitFirst(pattern, i, j, m);
        }
        return parallelPoint, true;
      }
      j := j + 2;
    }
    assert forall m :: 1 <= m < n && Reach(n, m) == i ==> 2 * m - 1 < i + j;
    return Ok(-1), false;
  }

  const NoLineFound := "Could not find value for the pattern beginning with: "

  /** Part 2's `computePattern`: 100 times the first horizontal mirror,
      otherwise the first vertical one; a pattern with neither panics. */
  method ComputeSmudgedPattern(pattern: seq<string>) returns (r: Result<int>)
    ensures r.Ok? ==> r.value >= 1
    ensures AllNonEmpty(pattern) ==> r == SmudgedValue(pattern)
    ensures AllNonEmpty(pattern) && r.Ok? ==>
      (exists m :: FirstHit(pattern, m) && r.value == CalculateValue(m, true)) ||
      ((forall m :: 1 <= m < |pattern| ==> !Hit(pattern, m)) && Transpose(pattern).Ok? &&
       exists m :: FirstHit(Transpose(pattern).value, m) && r.value == CalculateValue(m, false))
  {
    var patternValue :- FindHorizontalParallelLine(pattern);
    if patternValue != -1 {
      return Ok(CalculateValue(patternValue, true));
    }
    var inversePattern :- Transpose(pattern);
    assert AllNonEmpty(inversePattern) by {
      assert |pattern[0]| > 0 ==> |inversePattern| > 0;
    }
    patternValue :- FindHorizontalParallelLine(inversePattern);
    if patternValue == -1 {
      return Fatal(NoLineFound + pattern[0]);
    }
    return Ok(CalculateValue(patternValue, false));
  }

  /** The value of a pattern under part 2: 100 times the first smudged
      horizontal mirror; without one, the first smudged vertical mirror; a
      pattern with neither panics, and so does a failing verdict. */
  ghost function SmudgedValue(pattern: seq<string>): Result<int> {
    match HitReport(pattern)
    case Fatal(msg) => Fatal(msg)
    case Ok(row) =>
      if row != -1 then Ok(CalculateValue(row, true))
      else
        match Transpose(pattern)
        case Fatal(msg) => Fatal(msg)
        case Ok(columns) =>
          match HitReport(columns)
          case Fatal(msg) => Fatal(msg)
          case Ok(column) =>
            if column == -1 then Fatal(NoLineFound + pattern[0]) else Ok(CalculateValue(column, false))
  }

  /** The part 2 values of patterns that all have one, in order. */
  ghost function SmudgedValues(patterns: seq<seq<string>>): (vs: seq<int>)
    requires forall k :: 0 <= k < |patterns| ==> SmudgedValue(patterns[k]).Ok?
    ensures |vs| == |patterns|
  {
    seq(|patterns|, k requires 0 <= k < |patterns| => SmudgedValue(patterns[k]).value)
  }

  /** One more pattern adds its value. */
  lemma SmudgedValuesStep(patterns: seq<seq<string>>, k: nat)
    requires k < |patterns| && forall q :: 0 <= q <= k ==> SmudgedValue(patterns[q]).Ok?
    ensures Sum(SmudgedValues(patterns[..k + 1])) == Sum(SmudgedValues(patterns[..k])) + SmudgedValue(patterns[k]).value
  {
    var now := SmudgedValues(patterns[..k + 1]);
    assert now[..k] == SmudgedValues(patterns[..k]);
  }

  /** The gathered patterns hold no empty line. */
  lemma {:induction false} GatherNonEmpty(lines: seq<string>)
    ensures forall k :: 0 <= k < |Gather(lines).0| ==> AllNonEmpty(Gather(lines).0[k])
    ensures AllNonEmpty(Gather(lines).1)
    decreases |lines|
  {
    if |lines| > 0 {
      GatherNonEmpty(lines[..|lines| - 1]);
    }
  }

  lemma PatternsNonEmpty(lines: seq<string>)
    ensures forall k :: 0 <= k < |Patterns(lines)| ==> AllNonEmpty(Patterns(lines)[k])
  {
    GatherNonEmpty(lines);
  }

  /** Part 2's answer: the pattern values added up, each at least 1. */
  method SummarizeSmudged(lines: seq<string>) returns (r: Result<int>)
    ensures r.Ok? <==> forall k :: 0 <= k < |Patterns(lines)| ==> SmudgedValue(Patterns(lines)[k]).Ok?
    ensures r.Ok? ==> r.value == Sum(SmudgedValues(Patterns(lines)))
    ensures r.Ok? ==> r.value >= |Patterns(lines)|
  {
    var patterns := Patterns(lines);
    PatternsNonEmpty(lines);
    var sum := 0;
    for k := 0 to |patterns|
      invariant sum >= k
      invariant forall q :: 0 <= q < k ==> SmudgedValue(patterns[q]).Ok?
      invariant sum == Sum(SmudgedValues(patterns[..k]))
    {
      var v := ComputeSmudgedPattern(patterns[k]);
      if v.Fatal? {
        return Fatal(v.message);
      }
      SmudgedValuesStep(patterns, k);
      sum := sum + v.value;
    }
    assert patterns[..|patterns|] == patterns;
    return Ok(sum);
  }
}
