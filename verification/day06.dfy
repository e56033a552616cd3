/** Day 6: boat races. Holding the button for `c` of the race's `T`
    milliseconds moves the boat c·(T - c) millimetres; a race is won by beating
    the record (06/part1/part1.go, 06/part2.go). */
module Day06 {
  import opened Outcome
  import opened Text

  /** `calculateDistance`. */
  function Distance(charge: int, total: int): int {
    charge * (total - charge)
  }

  /** Charging for `c` or for `T - c` goes equally far. */
  lemma {:induction false} DistanceSymmetric(charge: int, total: int)
    ensures Distance(charge, total) == Distance(total - charge, total)
  {
    assert total - (total - charge) == charge;
    assert (total - charge) * charge == charge * (total - charge);
  }

  predicate Beats(i: int, total: int, record: int) {
    Distance(i, total) > record
  }

  /** The winning charge times among 1 .. total - 1. */
  function WinningTimes(total: int, record: int): set<int> {
    set i | 1 <= i < total && Beats(i, total, record)
  }

  /** The number of winning charge times among 1 .. n - 1. */
  function WinsBelow(n: int, total: int, record: int): (w: nat)
    ensures w <= if n >= 1 then n - 1 else 0
    decreases n
  {
    if n <= 1 then 0
    else WinsBelow(n - 1, total, record) + if Beats(n - 1, total, record) then 1 else 0
  }

  /** The inner loop of both parts: how many charge times 1 .. total - 1 beat
      the record. */
  method CountWins(total: int, record: int) returns (wins: nat)
    ensures wins == WinsBelow(total, total, record)
    ensures wins <= if total >= 1 then total - 1 else 0
  {
    wins := 0;
    var i := 1;
    while i < total
      invariant (total >= 1 ==> 1 <= i <= total) && (total < 1 ==> i == 1)
      invariant wins == WinsBelow(i, total, record)
      decreases total - i
    {
      if Distance(i, total) > record {
        wins := wins + 1;
      }
      i := i + 1;
    }
  }

  /** The count is the size of the set of winning times. */
  lemma {:induction false} WinsBelowMeaning(n: int, total: int, record: int)
    ensures WinsBelow(n, total, record) == |set i | 1 <= i < n && Beats(i, total, record)|
    decreases n
  {
    var s := set i | 1 <= i < n && Beats(i, total, record);
    if n <= 1 {
      assert s == {};
    } else {
      WinsBelowMeaning(n - 1, total, record);
      var t := set i | 1 <= i < n - 1 && Beats(i, total, record);
      if Beats(n - 1, total, record) {
        assert s == t + {n - 1};
      } else {
        assert s == t;
      }
    }
  }

  /** The winning times are symmetric about the middle of the race. */
  lemma WinningTimesSymmetric(total: int, record: int, i: int)
    requires i in WinningTimes(total, record)
    ensures total - i in WinningTimes(total, record)
  {
    DistanceSymmetric(i, total);
  }

  /** The time and record pairs of part 1: the fields after the labels of the
      two lines, paired by position. Too few lines, a line without fields or
      fewer records than times is an index out of range; unparsable fields read
      as 0. */
  function Races(lines: seq<string>): (r: Result<seq<(int, int)>>)
    ensures r.Ok? <==> |lines| >= 2 && |Fields(lines[0])| >= 1 && |Fields(lines[1])| >= |Fields(lines[0])|
    ensures r.Ok? ==> |r.value| == |Fields(lines[0])| - 1
    ensures r.Ok? ==> forall k :: 0 <= k < |r.value| ==>
      r.value[k] == (ParseIntIgnoringError(Fields(lines[0])[k + 1]),
                     ParseIntIgnoringError(Fields(lines[1])[k + 1]))
  {
    if |lines| < 2 then Fatal("index out of range")
    else
      var times, records := Fields(lines[0]), Fields(lines[1]);
      if |times| == 0 || |records| == 0 then Fatal("slice bounds out of range")
      else if |records| < |times| then Fatal("index out of range")
      else
        Ok(PairUp(times, records))
  }

  /** The fields after the label of each line, parsed and paired by position. */
  function PairUp(times: seq<string>, records: seq<string>): (r: seq<(int, int)>)
    requires 1 <= |times| <= |records|
    ensures |r| == |times| - 1
    ensures forall k :: 0 <= k < |r| ==> r[k] == (ParseIntIgnoringError(times[k + 1]), ParseIntIgnoringError(records[k + 1]))
  {
    seq(|times| - 1, k requires 0 <= k < |times| - 1 =>
      (ParseIntIgnoringError(times[k + 1]), ParseIntIgnoringError(records[k + 1])))
  }

  function Product(xs: seq<nat>): nat
    decreases |xs|
  {
    if |xs| == 0 then 1 else Product(xs[..|xs| - 1]) * xs[|xs| - 1]
  }

  /** The win counts of the races, in order. */
  function WinCounts(races: seq<(int, int)>): (w: seq<nat>)
    ensures |w| == |races|
    ensures forall k :: 0 <= k < |races| ==> w[k] == WinsBelow(races[k].0, races[k].0, races[k].1)
  {
    seq(|races|, k requires 0 <= k < |races| => WinsBelow(races[k].0, races[k].0, races[k].1))
  }

  /** A race nobody can win makes the product 0. */
  lemma {:induction false} ProductWithZero(xs: seq<nat>, k: nat)
    requires k < |xs| && xs[k] == 0
    ensures Product(xs) == 0
    decreases |xs|
  {
    if k < |xs| - 1 {
      ProductWithZero(xs[..|xs| - 1], k);
    }
  }

  /** Part 1 answer: the product of the win counts, 1 without races. */
  function WinProduct(lines: seq<string>): (r: Result<nat>)
    ensures r.Ok? <==> Races(lines).Ok?
    ensures r.Ok? && |Races(lines).value| == 0 ==> r.value == 1
    ensures r.Ok? ==> r.value == Product(WinCounts(Races(lines).value))
  {
    var races :- Races(lines);
    Ok(Product(WinCounts(races)))
  }

  /** Part 2 reading: the fields after the label glued together. */
  function Kerned(line: string): (r: Result<string>)
    ensures r.Ok? <==> |Fields(line)| >= 1
    ensures r.Ok? ==> r.value == Join(Fields(line)[1..], "")
  {
    var fields := Fields(line);
    if |fields| == 0 then Fatal("slice bounds out of range") else Ok(Join(fields[1..], ""))
  }

  /** Part 2 answer: the wins of the one long race. */
  function LongRaceWins(lines: seq<string>): (r: Result<nat>)
    ensures r.Ok? <==> |lines| >= 2 && Kerned(lines[0]).Ok? && Kerned(lines[1]).Ok?
    ensures r.Ok? ==>
      var total := ParseIntIgnoringError(Kerned(lines[0]).value);
      r.value == |WinningTimes(total, ParseIntIgnoringError(Kerned(lines[1]).value))|
  {
    if |lines| < 2 then Fatal("index out of range")
    else
      var time :- Kerned(lines[0]);
      var distance :- Kerned(lines[1]);
      var total, record := ParseIntIgnoringError(time), ParseIntIgnoringError(distance);
      WinsBelowMeaning(total, total, record);
      Ok(WinsBelow(total, total, record))
  }

  /** The puzzle's first example race: 7 ms against a 9 mm record is won by
      holding 2, 3, 4 or 5 ms. */
  lemma ExampleRace()
    ensures WinningTimes(7, 9) == {2, 3, 4, 5}
    ensures WinsBelow(7, 7, 9) == 4
  {
    assert !Beats(1, 7, 9) && Beats(2, 7, 9) && Beats(5, 7, 9) && !Beats(6, 7, 9);
    WinsBelowMeaning(7, 7, 9);
    assert WinningTimes(7, 9) == {2, 3, 4, 5};
  }
}
