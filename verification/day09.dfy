/** Day 9: Mirage Maintenance. A sequence is extended by its table of
    differences: differences are taken until a row's differences are all zero,
    and the next value is the final row's constant plus the last element of
    every earlier row. Part 2 extends the reversed sequence, which gives the
    value before the first (09/part1/part1.go, 09/part2.go). */
module Day09 {
  import opened Outcome

  /** The differences of neighbouring elements. */
  function Differences(s: seq<int>): seq<int>
    requires |s| >= 1
  {
    seq(|s| - 1, i requires 0 <= i < |s| - 1 => s[i + 1] - s[i])
  }

  predicate AllZero(s: seq<int>) {
    forall i :: 0 <= i < |s| ==> s[i] == 0
  }

  /** `calculateSlope`: the differences and whether they are all zero; a
      sequence shorter than two panics. */
  method CalculateSlope(s: seq<int>) returns (r: Result<(seq<int>, bool)>)
    ensures r.Ok? <==> |s| >= 2
    ensures r.Ok? ==> |r.value.0| == |s| - 1
    ensures r.Ok? ==> forall i :: 1 <= i < |s| ==> r.value.0[i - 1] == s[i] - s[i - 1]
    ensures r.Ok? ==> (r.value.1 <==> forall i :: 1 <= i < |s| ==> s[i] == s[i - 1])
    ensures r.Ok? ==> r.value.0 == Differences(s) && (r.value.1 <==> AllZero(Differences(s)))
  {
    if |s| < 2 {
      return Fatal(InvalidSequence);
    }
    var isZero := true;
    var slopes := seq(|s| - 1, _ => 0);
    for i := 1 to |s|
      invariant |slopes| == |s| - 1
      invariant forall k :: 1 <= k < i ==> slopes[k - 1] == s[k] - s[k - 1]
      invariant isZero <==> forall k :: 1 <= k < i ==> s[k] == s[k - 1]
    {
      var newVal := s[i] - s[i - 1];
      if isZero && newVal != 0 {
        isZero := false;
      }
      slopes := slopes[i - 1 := newVal];
    }
    DifferencesPointwise(s, slopes);
    DifferencesZero(s);
    return Ok((slopes, isZero));
  }

  const InvalidSequence := "Invalid sequence entered."

  /** The pointwise differences are `Differences`. */
  lemma DifferencesPointwise(s: seq<int>, slopes: seq<int>)
    requires |s| >= 2 && |slopes| == |s| - 1
    requires forall k :: 1 <= k < |s| ==> slopes[k - 1] == s[k] - s[k - 1]
    ensures slopes == Differences(s)
  {
    assert forall k :: 0 <= k < |s| - 1 ==> slopes[k] == Differences(s)[k];
  }

  /** The differences are all zero exactly when consecutive elements agree. */
  lemma DifferencesZero(s: seq<int>)
    requires |s| >= 2
    ensures AllZero(Differences(s)) <==> forall k :: 1 <= k < |s| ==> s[k] == s[k - 1]
  {
    var d := Differences(s);
    if AllZero(d) {
      forall k | 1 <= k < |s|
        ensures s[k] == s[k - 1]
      {
        assert d[k - 1] == 0;
      }
    }
  }

  /** A row the loop adds to the tree is followed by its differences. */
  predicate Linked(tree: seq<seq<int>>, i: nat)
    requires i + 1 < |tree|
  {
    |tree[i]| >= 2 && tree[i + 1] == Differences(tree[i]) && !AllZero(tree[i + 1])
  }

  /** `slopeTree`: the sequence and its rows of differences, down to the first
      row whose differences are all zero. Running out of elements before that
      panics. */
  function SlopeTree(s: seq<int>): (tree: Result<seq<seq<int>>>)
    ensures tree.Ok? ==> |tree.value| >= 1 && tree.value[0] == s
    ensures tree.Ok? ==> forall i :: 0 <= i < |tree.value| - 1 ==> Linked(tree.value, i)
    ensures tree.Ok? ==>
      var last := tree.value[|tree.value| - 1];
      |last| >= 2 && AllZero(Differences(last))
    ensures |s| < 2 ==> tree.Fatal?
    decreases |s|
  {
    if |s| < 2 then Fatal("Invalid sequence entered.")
    else
      var d := Differences(s);
      if AllZero(d) then Ok([s])
      else
        var rest := SlopeTree(d);
        if rest.Fatal? then rest
        else
          var tree := [s] + rest.value;
          assert forall i :: 1 <= i < |tree| - 1 ==> Linked(rest.value, i - 1) ==> Linked(tree, i);
          Ok(tree)
  }

  /** The last elements of the rows, added up. */
  function SumOfLasts(rows: seq<seq<int>>): int
    requires forall i :: 0 <= i < |rows| ==> |rows[i]| >= 1
    decreases |rows|
  {
    if |rows| == 0 then 0 else rows[0][|rows[0]| - 1] + SumOfLasts(rows[1..])
  }

  /** `calculateNextValueInPolynomialSequence`: the final row's first element
      plus the last element of every earlier row. */
  function NextValue(s: seq<int>): (r: Result<int>)
    ensures |s| < 2 ==> r.Fatal?
  {
    var tree :- SlopeTree(s);
    var last := tree[|tree| - 1];
    var earlier := tree[..|tree| - 1];
    assert forall i :: 0 <= i < |earlier| ==> Linked(tree, i) && earlier[i] == tree[i];
    Ok(last[0] + SumOfLasts(earlier))
  }

  /** The next value of a sequence whose differences are not all zero is its
      last element plus the next value of the differences. */
  lemma NextValueRecursive(s: seq<int>)
    requires |s| >= 2
    ensures AllZero(Differences(s)) ==> NextValue(s) == Ok(s[0])
    ensures !AllZero(Differences(s)) ==>
      match NextValue(Differences(s))
      case Ok(v) => NextValue(s) == Ok(s[|s| - 1] + v)
      case Fatal(_) => NextValue(s).Fatal?
  {
    var d := Differences(s);
    if !AllZero(d) && SlopeTree(d).Ok? {
      var rest := SlopeTree(d).value;
      var tree := [s] + rest;
      assert SlopeTree(s) == Ok(tree);
      assert tree[..|tree| - 1] == [s] + rest[..|rest| - 1];
      assert ([s] + rest[..|rest| - 1])[1..] == rest[..|rest| - 1];
    }
  }

  /** A constant sequence of at least two elements continues with the same
      value. */
  lemma ConstantContinues(s: seq<int>, c: int)
    requires |s| >= 2 && forall i :: 0 <= i < |s| ==> s[i] == c
    ensures NextValue(s) == Ok(c)
  {
    NextValueRecursive(s);
  }

  /** An arithmetic sequence of at least three elements with non-zero step `d`
      continues with its last element plus `d`. */
  lemma ArithmeticContinues(s: seq<int>, d: int)
    requires |s| >= 3 && d != 0 && forall i :: 1 <= i < |s| ==> s[i] - s[i - 1] == d
    ensures NextValue(s) == Ok(s[|s| - 1] + d)
  {
    var diffs := Differences(s);
    assert diffs[0] == d;
    assert !AllZero(diffs);
    NextValueRecursive(s);
    ConstantContinues(diffs, d);
  }

  /** Two elements that differ leave a single difference, whose own
      differences cannot be taken: the program panics on [0, 1]. */
  lemma TooShortToSettle()
    ensures NextValue([0, 1]).Fatal?
  {
    var d := Differences([0, 1]);
    assert |d| == 1 && d[0] == 1;
    assert !AllZero(d);
    NextValueRecursive([0, 1]);
  }

  /** Adding a constant to every element adds it to the next value. */
  lemma NextValueShift(s: seq<int>, c: int)
    ensures var t := seq(|s|, i requires 0 <= i < |s| => s[i] + c);
      match NextValue(s)
      case Ok(v) => NextValue(t) == Ok(v + c)
      case Fatal(_) => NextValue(t).Fatal?
  {
    var t := seq(|s|, i requires 0 <= i < |s| => s[i] + c);
    if |s| >= 2 {
      assert Differences(t) == Differences(s);
      NextValueRecursive(s);
      NextValueRecursive(t);
    }
  }

  function Reverse(s: seq<int>): (r: seq<int>)
    ensures |r| == |s| && forall i :: 0 <= i < |s| ==> r[i] == s[|s| - 1 - i]
  {
    seq(|s|, i requires 0 <= i < |s| => s[|s| - 1 - i])
  }

  /** `calculatePreviousValueInPolynomialSequence`: the next value of the
      reversed sequence. */
  function PreviousValue(s: seq<int>): (r: Result<int>)
    ensures |s| < 2 ==> r.Fatal?
  {
    NextValue(Reverse(s))
  }

  /** A constant sequence has the same value before it. */
  lemma ConstantPrecededBy(s: seq<int>, c: int)
    requires |s| >= 2 && forall i :: 0 <= i < |s| ==> s[i] == c
    ensures PreviousValue(s) == Ok(c)
  {
    ConstantContinues(Reverse(s), c);
  }

  /** An arithmetic sequence of at least three elements with non-zero step `d`
      is preceded by its first element minus `d`. */
  lemma ArithmeticPrecededBy(s: seq<int>, d: int)
    requires |s| >= 3 && d != 0 && forall i :: 1 <= i < |s| ==> s[i] - s[i - 1] == d
    ensures PreviousValue(s) == Ok(s[0] - d)
  {
    var r := Reverse(s);
    assert forall i :: 1 <= i < |r| ==> r[i] - r[i - 1] == -d by {
      forall i | 1 <= i < |r| ensures r[i] - r[i - 1] == -d {
        assert r[i] == s[|s| - 1 - i] && r[i - 1] == s[|s| - 1 - i + 1];
      }
    }
    ArithmeticContinues(r, -d);
  }

  /** The value a line contributes: the next value of its numbers, or under
      part 2 the value before them; `parse` reads the line into numbers (the
      program's `AsNumericalSlice`). */
  function Extrapolate(parse: string -> seq<int>, previous: bool): string -> Result<int> {
    line => if previous then PreviousValue(parse(line)) else NextValue(parse(line))
  }

  /** Both answers: the values of the lines added up. Fatal if any line's
      value is. */
  function SumOfValues(lines: seq<string>, parse: string -> seq<int>, previous: bool): (r: Result<int>)
    ensures r.Ok? <==> forall k :: 0 <= k < |lines| ==>
      (if previous then PreviousValue(parse(lines[k])) else NextValue(parse(lines[k]))).Ok?
    ensures r.Ok? ==> r.value == Sum(ParseEach(lines, Extrapolate(parse, previous)).value)
  {
    var r := SumEach(lines, Extrapolate(parse, previous));
    if r.Ok? then
      SumEachIsSum(lines, Extrapolate(parse, previous));
      r
    else r
  }

  /** The puzzle's first example history: 0 3 6 9 12 15 continues with 18 and
      is preceded by -3. */
  lemma ExampleHistory()
    ensures NextValue([0, 3, 6, 9, 12, 15]) == Ok(18)
    ensures PreviousValue([0, 3, 6, 9, 12, 15]) == Ok(-3)
  {
    ExampleHistoryNext();
    ExampleHistoryPrevious();
  }

  lemma ExampleHistoryNext()
    ensures NextValue([0, 3, 6, 9, 12, 15]) == Ok(18)
  {
    ArithmeticContinues([0, 3, 6, 9, 12, 15], 3);
  }

  lemma ExampleHistoryPrevious()
    ensures PreviousValue([0, 3, 6, 9, 12, 15]) == Ok(-3)
  {
    ArithmeticPrecededBy([0, 3, 6, 9, 12, 15], 3);
  }
}
