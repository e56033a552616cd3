/** Day 5: seeds are pushed through seven lookup tables (seed to soil, soil to
    fertilizer, ..., humidity to location); each table maps the numbers covered
    by one of its entries by a fixed offset and leaves every other number alone
    (05/part1/part1.go, 05/part2.go). */
module Day05 {
  import opened Outcome
  import opened Text

  /** `mapEntry`: the numbers source .. source + range - 1 map to
      dest .. dest + range - 1. */
  datatype MapEntry = MapEntry(dest: int, source: int, range: int)

  type Table = seq<MapEntry>

  predicate Covers(e: MapEntry, x: int) {
    e.source <= x <= e.source + e.range - 1
  }

  function Shift(e: MapEntry, x: int): int {
    x - e.source + e.dest
  }

  /** `parseLine`: exactly three space-separated 64-bit decimal fields, in the
      order dest, source, range; anything else panics. */
  function ParseLine(line: string): (r: Result<MapEntry>)
    ensures r.Ok? <==> ThreeFields(SplitOn(line, " "))
    ensures r.Ok? ==> r.value == EntryOf(SplitOn(line, " "))
  {
    var values := SplitOn(line, " ");
    if ThreeFields(values) then Ok(EntryOf(values))
    else Fatal("Error during parsing. Line is: " + line)
  }

  /** Exactly three fields, each a 64-bit decimal integer. */
  predicate ThreeFields(values: seq<string>) {
    |values| == 3 && ParseInt(values[0]).Ok? && ParseInt(values[1]).Ok? && ParseInt(values[2]).Ok?
  }

  /** The entry whose dest, source and range are the three fields, in order. */
  function EntryOf(values: seq<string>): MapEntry
    requires ThreeFields(values)
  {
    MapEntry(ParseInt(values[0]).value, ParseInt(values[1]).value, ParseInt(values[2]).value)
  }

  /** Where one loop of `initializeMaps` stops reading when it starts at line
      `i`: the first blank line from `i` on, or the end of the lines. */
  function SectionStop(lines: seq<string>, i: nat): (stop: nat)
    ensures i <= stop
    ensures forall k :: i <= k < stop ==> NonBlank(lines, k)
    ensures stop >= |lines| || |lines[stop]| == 0
    decreases |lines| - i
  {
    if i >= |lines| || |lines[i]| == 0 then i else SectionStop(lines, i + 1)
  }

  predicate NonBlank(lines: seq<string>, k: int) {
    0 <= k < |lines| && |lines[k]| != 0
  }

  /** The index where the next loop of `initializeMaps` starts: two past the
      blank line (skipping the next table's header), or where reading ended. */
  function NextSection(lines: seq<string>, i: nat): nat {
    var stop := SectionStop(lines, i);
    if stop < |lines| then stop + 2 else stop
  }

  /** `parseLine` applied to every line, fatal at the first that fails. */
  function ParseLines(ls: seq<string>): (r: Result<Table>)
    ensures r.Ok? <==> forall k :: 0 <= k < |ls| ==> ParseLine(ls[k]).Ok?
    ensures r.Ok? ==> |r.value| == |ls|
    ensures r.Ok? ==> forall k :: 0 <= k < |ls| ==> ParseLine(ls[k]) == Ok(r.value[k])
  {
    ParseEach(ls, ParseLine)
  }

  /** The entries one loop of `initializeMaps` reads from line `i` on. */
  function ReadSection(lines: seq<string>, i: nat): Result<Table> {
    var stop := SectionStop(lines, i);
    if stop <= |lines| then ParseLines(lines[i..stop]) else Ok([])
  }

  predicate Sorted(t: Table) {
    forall i, j :: 0 <= i < j < |t| ==> t[i].source <= t[j].source
  }

  /** Inserts `e` before the first entry whose source is not smaller. */
  function Insert(e: MapEntry, t: Table): (r: Table)
    requires Sorted(t)
    ensures Sorted(r)
    ensures multiset(r) == multiset(t) + multiset{e}
    ensures |r| == |t| + 1 && (r[0] == e || (|t| > 0 && r[0] == t[0]))
    decreases |t|
  {
    if |t| == 0 || e.source <= t[0].source then [e] + t
    else
      var rest := Insert(e, t[1..]);
      assert t == [t[0]] + t[1..];
      assert t[0].source <= rest[0].source;
      [t[0]] + rest
  }

  /** The `sort.Slice` by source that ends `initializeMaps`: the same entries,
      sorted by source. */
  function SortBySource(t: Table): (r: Table)
    ensures Sorted(r)
    ensures multiset(r) == multiset(t)
    decreases |t|
  {
    if |t| == 0 then []
    else
      assert t == [t[0]] + t[1..];
      Insert(t[0], SortBySource(t[1..]))
  }

  /** One loop of `initializeMaps`: the entries of the section at line `i`,
      sorted by source. */
  function SortedSection(lines: seq<string>, i: nat): Result<Table> {
    var entries :- ReadSection(lines, i);
    Ok(SortBySource(entries))
  }

  function Sections(lines: seq<string>): nat -> Result<Table> {
    (i: nat) => SortedSection(lines, i)
  }

  function Advance(lines: seq<string>): nat -> nat {
    (i: nat) => NextSection(lines, i)
  }

  /** Where the `k`-th of the sections read from line `i` on starts. */
  function SectionStart(lines: seq<string>, i: nat, k: nat): nat {
    ChainStart(i, k, Advance(lines))
  }

  /** `initializeMaps`: `n` tables read one after the other from line `i` on;
      table `k` holds the entries of the `k`-th section sorted by source, and
      the first section with a line that does not parse stops the program. */
  function ReadTables(lines: seq<string>, i: nat, n: nat): (r: Result<seq<Table>>)
    ensures r.Fatal? ==> exists k :: 0 <= k < n && ReadSection(lines, SectionStart(lines, i, k)).Fatal?
    ensures (forall k :: 0 <= k < n ==> ReadSection(lines, SectionStart(lines, i, k)).Ok?) ==> r.Ok?
    ensures r.Ok? ==> |r.value| == n
    ensures r.Ok? ==> forall k :: 0 <= k < n ==>
      ReadSection(lines, SectionStart(lines, i, k)).Ok? &&
      r.value[k] == SortBySource(ReadSection(lines, SectionStart(lines, i, k)).value)
    ensures r.Ok? ==> forall k :: 0 <= k < n ==> Sorted(r.value[k])
  {
    var r := ReadChain(i, n, Sections(lines), Advance(lines));
    if r.Fatal? then
      assert exists k :: 0 <= k < n && ReadSection(lines, SectionStart(lines, i, k)).Fatal? by {
        var k :| 0 <= k < n && Sections(lines)(ChainStart(i, k, Advance(lines))).Fatal?;
        assert ReadSection(lines, SectionStart(lines, i, k)).Fatal?;
      }
      r
    else r
  }

  /** The seven tables: the first entry sits on line 3 (after the seed line, a
      blank line and the first header). */
  function InitializeMaps(lines: seq<string>): (r: Result<seq<Table>>)
    ensures r.Fatal? ==> exists k :: 0 <= k < 7 && ReadSection(lines, SectionStart(lines, 3, k)).Fatal?
    ensures (forall k :: 0 <= k < 7 ==> ReadSection(lines, SectionStart(lines, 3, k)).Ok?) ==> r.Ok?
    ensures r.Ok? ==> |r.value| == 7
    ensures r.Ok? ==> forall k :: 0 <= k < 7 ==>
      ReadSection(lines, SectionStart(lines, 3, k)).Ok? &&
      r.value[k] == SortBySource(ReadSection(lines, SectionStart(lines, 3, k)).value)
    ensures r.Ok? ==> forall k :: 0 <= k < 7 ==> Sorted(r.value[k])
  {
    ReadTables(lines, 3, 7)
  }

  /** The index the scan of `calculateValue` settles on: the entry just before
      the first one whose source exceeds `x`, or the last entry. */
  function Candidate(t: Table, x: int, from: nat): (c: nat)
    requires from < |t| && t[from].source <= x
    ensures from <= c < |t|
    ensures forall k :: from <= k <= c ==> t[k].source <= x
    ensures c + 1 == |t| || t[c + 1].source > x
    decreases |t| - from
  {
    if from + 1 < |t| && t[from + 1].source <= x then Candidate(t, x, from + 1) else from
  }

  /** `calculateValue` as the program computes it. An empty table is an index
      out of range. */
  function CalculateValue(t: Table, x: int): (r: Result<int>)
    ensures r.Fatal? <==> |t| == 0
    ensures r.Ok? && x < t[0].source ==> r.value == x
    ensures r.Ok? && x > t[|t| - 1].source + t[|t| - 1].range - 1 ==> r.value == x
    ensures r.Ok? ==> r.value == x || exists k :: 0 <= k < |t| && Covers(t[k], x) && r.value == Shift(t[k], x)
  {
    if |t| == 0 then Fatal("index out of range [0] with length 0")
    else if x < t[0].source then Ok(x)
    else
      var last := t[|t| - 1];
      if x > last.source + last.range - 1 then Ok(x)
      else
        var e := t[Candidate(t, x, 0)];
        if x > e.source + e.range - 1 then Ok(x)
        else Ok(Shift(e, x))
  }

  /** The scan loop of `calculateValue`, with its early exit. */
  method Lookup(t: Table, x: int) returns (r: Result<int>)
    ensures r == CalculateValue(t, x)
  {
    if |t| == 0 {
      return Fatal("index out of range [0] with length 0");
    }
    if x < t[0].source {
      return Ok(x);
    }
    var last := t[|t| - 1];
    if x > last.source + last.range - 1 {
      return Ok(x);
    }
    var chosen := 0;
    var k := 0;
    while k < |t|
      invariant 0 <= chosen <= k <= |t| && (k > 0 ==> chosen == k - 1)
      invariant forall j :: 0 <= j < k ==> t[j].source <= x
      invariant k < |t| && k > 0 ==> Candidate(t, x, 0) >= k - 1
      invariant k == 0 ==> chosen == 0
      decreases |t| - k
    {
      if t[k].source > x {
        break;
      }
      chosen := k;
      k := k + 1;
    }
    CandidateIsFirstExceeding(t, x, chosen);
    var e := t[chosen];
    if x > e.source + e.range - 1 {
      return Ok(x);
    }
    return Ok(Shift(e, x));
  }

  /** The candidate is pinned down by its two defining facts. */
  lemma {:induction false} CandidateIsFirstExceeding(t: Table, x: int, c: nat)
    requires c < |t| && forall k :: 0 <= k <= c ==> t[k].source <= x
    requires c + 1 == |t| || t[c + 1].source > x
    ensures Candidate(t, x, 0) == c
  {
    var d := Candidate(t, x, 0);
  }

  /** Entries whose intervals do not overlap, as in the puzzle input. */
  predicate Disjoint(t: Table) {
    forall i, j :: 0 <= i < j < |t| ==> t[i].source + t[i].range <= t[j].source
  }

  predicate NonNegativeRanges(t: Table) {
    forall i :: 0 <= i < |t| ==> t[i].range >= 0
  }

  /** On a sorted table of disjoint entries, `calculateValue` is the piecewise
      map: shifted by the covering entry's offset inside an entry, unchanged
      outside all of them. */
  lemma CalculateValueMeaning(t: Table, x: int)
    requires |t| > 0 && Sorted(t) && Disjoint(t) && NonNegativeRanges(t)
    ensures forall k :: 0 <= k < |t| && Covers(t[k], x) ==> CalculateValue(t, x) == Ok(Shift(t[k], x))
    ensures (forall k :: 0 <= k < |t| ==> !Covers(t[k], x)) ==> CalculateValue(t, x) == Ok(x)
  {
    var last := t[|t| - 1];
    if x < t[0].source {
      assert forall k :: 0 <= k < |t| ==> !Covers(t[k], x);
    } else if x > last.source + last.range - 1 {
      forall k | 0 <= k < |t| - 1 ensures !Covers(t[k], x) {
        assert t[k].source + t[k].range <= last.source;
      }
      assert !Covers(t[|t| - 1], x);
    } else {
      var c := Candidate(t, x, 0);
      forall k | 0 <= k < |t| && k != c ensures !Covers(t[k], x) {
        if k < c {
          assert t[k].source + t[k].range <= t[c].source;
        } else {
          assert t[c + 1].source <= t[k].source;
        }
      }
    }
  }

  /** `calculateLocationValue`: the number pushed through the tables in order. */
  function Location(tables: seq<Table>, x: int): (r: Result<int>)
    ensures |tables| == 0 ==> r == Ok(x)
    ensures r.Ok? && |tables| > 0 ==>
      CalculateValue(tables[0], x).Ok? && r == Location(tables[1..], CalculateValue(tables[0], x).value)
    decreases |tables|
  {
    if |tables| == 0 then Ok(x)
    else
      var y :- CalculateValue(tables[0], x);
      Location(tables[1..], y)
  }

  /** Tables without entries covering anything leave every number alone. */
  lemma {:induction false} LocationOfIdentityTables(tables: seq<Table>, x: int)
    requires forall k :: 0 <= k < |tables| ==> |tables[k]| > 0 && Sorted(tables[k])
    requires forall k :: 0 <= k < |tables| ==> Disjoint(tables[k]) && NonNegativeRanges(tables[k])
    requires forall k, i :: 0 <= k < |tables| && 0 <= i < |tables[k]| ==> tables[k][i].range == 0
    ensures Location(tables, x) == Ok(x)
    decreases |tables|
  {
    if |tables| > 0 {
      CalculateValueMeaning(tables[0], x);
      LocationOfIdentityTables(tables[1..], x);
    }
  }

  function Min(a: int, b: int): int {
    if a <= b then a else b
  }

  /** Part 1 seed loop: the smallest location of the seeds, starting from the
      largest 64-bit value. */
  function MinLocation(tables: seq<Table>, seeds: seq<int>): (r: Result<int>)
    ensures r.Ok? <==> forall k :: 0 <= k < |seeds| ==> Location(tables, seeds[k]).Ok?
    ensures r.Ok? ==> r.value <= MaxInt64
    ensures r.Ok? ==> forall k :: 0 <= k < |seeds| ==>
      Location(tables, seeds[k]).Ok? && r.value <= Location(tables, seeds[k]).value
    ensures r.Ok? ==> (r.value == MaxInt64 ||
                       exists k :: 0 <= k < |seeds| && r.value == Location(tables, seeds[k]).value)
  {
    MinOf(seeds, seed => Location(tables, seed))
  }

  /** The smallest of the seeds' locations under `locate`, starting from
      the largest 64-bit value; the first failing seed stops the program. */
  function MinOf(seeds: seq<int>, locate: int -> Result<int>): (r: Result<int>)
    ensures r.Ok? <==> forall k :: 0 <= k < |seeds| ==> locate(seeds[k]).Ok?
    ensures r.Ok? ==> r.value <= MaxInt64
    ensures r.Ok? ==> forall k :: 0 <= k < |seeds| ==>
      locate(seeds[k]).Ok? && r.value <= locate(seeds[k]).value
    ensures r.Ok? ==> (r.value == MaxInt64 ||
                       exists k :: 0 <= k < |seeds| && r.value == locate(seeds[k]).value)
    decreases |seeds|
  {
    if |seeds| == 0 then Ok(MaxInt64)
    else
      var before := MinOf(seeds[..|seeds| - 1], locate);
      if before.Fatal? then Fatal(before.message)
      else
        var here := locate(seeds[|seeds| - 1]);
        if here.Fatal? then Fatal(here.message)
        else
          assert forall k :: 0 <= k < |seeds| - 1 ==> seeds[..|seeds| - 1][k] == seeds[k];
          Ok(Min(before.value, here.value))
  }

  /** The seed numbers on the first line, after the "seeds:" label; a field
      that does not parse reads as 0, as the ignored error leaves it. */
  function Seeds(firstLine: string): (seeds: seq<int>)
    ensures |seeds| == |SplitOn(firstLine, " ")| - 1
    ensures forall k :: 0 <= k < |seeds| ==> seeds[k] == ParseIntIgnoringError(SplitOn(firstLine, " ")[k + 1])
  {
    var fields := SplitOn(firstLine, " ");
    seq(|fields| - 1, k requires 0 <= k < |fields| - 1 => ParseIntIgnoringError(fields[k + 1]))
  }

  /** Part 1 answer. */
  function LowestLocation(lines: seq<string>): (r: Result<int>)
    ensures r.Ok? <==> (|lines| > 0 && InitializeMaps(lines).Ok? &&
                        forall k :: 0 <= k < |Seeds(lines[0])| ==> Location(InitializeMaps(lines).value, Seeds(lines[0])[k]).Ok?)
    ensures r.Ok? ==> r == MinLocation(InitializeMaps(lines).value, Seeds(lines[0]))
  {
    if |lines| == 0 then Fatal("index out of range [0] with length 0")
    else
      var tables :- InitializeMaps(lines);
      MinLocation(tables, Seeds(lines[0]))
  }

  // Part 2

  /** The seeds start, start + 1, ..., start + count - 1 of one seed range. */
  predicate InRange(start: int, count: int, seed: int) {
    start <= seed < start + count
  }

  /** The inner loop of part 2: the minimum of `acc` and the locations of the
      `count` seeds from `start` on. */
  function RangeMin(tables: seq<Table>, start: int, count: nat, acc: int): (r: Result<int>)
    ensures r.Ok? <==> forall s :: InRange(start, count, s) ==> Location(tables, s).Ok?
    ensures r.Ok? ==> r.value <= acc
    ensures r.Ok? ==> forall s :: InRange(start, count, s) ==>
      Location(tables, s).Ok? && r.value <= Location(tables, s).value
    decreases count
  {
    if count == 0 then Ok(acc)
    else
      var here := Location(tables, start);
      if here.Fatal? then
        assert InRange(start, count, start);
        Fatal(here.message)
      else
        var rest := RangeMin(tables, start + 1, count - 1, Min(acc, here.value));
        if rest.Fatal? then
          assert exists s :: InRange(start, count, s) && Location(tables, s).Fatal? by {
            var s :| InRange(start + 1, count - 1, s) && Location(tables, s).Fatal?;
            assert InRange(start, count, s);
          }
          Fatal(rest.message)
        else
          assert forall s :: InRange(start, count, s) ==> s == start || InRange(start + 1, count - 1, s);
          rest
  }

  /** The minimum is the starting value or the location of a visited seed. */
  lemma {:induction false} RangeMinAttained(tables: seq<Table>, start: int, count: nat, acc: int)
    requires RangeMin(tables, start, count, acc).Ok?
    ensures var m := RangeMin(tables, start, count, acc).value;
      m == acc || exists s :: InRange(start, count, s) && Location(tables, s) == Ok(m)
    decreases count
  {
    if count > 0 {
      var here := Location(tables, start);
      var next := Min(acc, here.value);
      RangeMinAttained(tables, start + 1, count - 1, next);
      var m := RangeMin(tables, start, count, acc).value;
      if m != acc {
        if m == next {
          assert InRange(start, count, start);
        } else {
          var s :| InRange(start + 1, count - 1, s) && Location(tables, s) == Ok(m);
          assert InRange(start, count, s);
        }
      }
    }
  }

  /** The seed range at fields `i` and `i + 1`: its first seed and how many
      seeds it holds; a zero or negative length holds none. */
  function PairAt(fields: seq<string>, i: nat): (int, nat)
    requires i + 1 < |fields|
  {
    var length := ParseIntIgnoringError(fields[i + 1]);
    (ParseIntIgnoringError(fields[i]), if length > 0 then length else 0)
  }

  /** The seed ranges of the seed line from field `i` on, taken two fields at
      a time; an odd field left over is an index out of range. */
  function SeedPairs(fields: seq<string>, i: nat): (r: Result<seq<(int, nat)>>)
    ensures r.Ok? <==> i >= |fields| || (|fields| - i) % 2 == 0
  {
    if i < |fields| && (|fields| - i) % 2 == 1 then Fatal("index out of range")
    else
      var n := if i >= |fields| then 0 else (|fields| - i) / 2;
      Ok(seq(n, k requires 0 <= k < n => PairAt(fields, i + 2 * k)))
  }

  /** Every seed of every range has a location. */
  ghost predicate AllLocated(tables: seq<Table>, pairs: seq<(int, nat)>) {
    forall k, s :: 0 <= k < |pairs| && InRange(pairs[k].0, pairs[k].1, s) ==> Location(tables, s).Ok?
  }

  /** The outer loop of part 2: the minimum of `acc` and the locations of the
      seeds in every range. */
  function PairsMin(tables: seq<Table>, pairs: seq<(int, nat)>, acc: int): (r: Result<int>)
    ensures r.Ok? <==> AllLocated(tables, pairs)
    ensures r.Ok? ==> r.value <= acc
    ensures r.Ok? ==> forall k, s :: 0 <= k < |pairs| && InRange(pairs[k].0, pairs[k].1, s) ==>
      Location(tables, s).Ok? && r.value <= Location(tables, s).value
    decreases |pairs|
  {
    if |pairs| == 0 then Ok(acc)
    else
      var here := RangeMin(tables, pairs[0].0, pairs[0].1, acc);
      if here.Fatal? then Fatal(here.message)
      else
        var rest := PairsMin(tables, pairs[1..], here.value);
        assert forall k :: 1 <= k < |pairs| ==> pairs[k] == pairs[1..][k - 1];
        if rest.Fatal? then
          assert !AllLocated(tables, pairs) by {
            var k, s :| 0 <= k < |pairs[1..]| && InRange(pairs[1..][k].0, pairs[1..][k].1, s) && Location(tables, s).Fatal?;
            assert pairs[k + 1] == pairs[1..][k];
          }
          Fatal(rest.message)
        else
          rest
  }

  /** The minimum is the starting value or the location of a visited seed. */
  lemma {:induction false} PairsMinAttained(tables: seq<Table>, pairs: seq<(int, nat)>, acc: int)
    requires PairsMin(tables, pairs, acc).Ok?
    ensures var m := PairsMin(tables, pairs, acc).value;
      m == acc || exists k, s :: 0 <= k < |pairs| && InRange(pairs[k].0, pairs[k].1, s) && Location(tables, s) == Ok(m)
    decreases |pairs|
  {
    if |pairs| > 0 {
      var here := RangeMin(tables, pairs[0].0, pairs[0].1, acc);
      RangeMinAttained(tables, pairs[0].0, pairs[0].1, acc);
      PairsMinAttained(tables, pairs[1..], here.value);
      var m := PairsMin(tables, pairs, acc).value;
      if m != acc {
        if m == here.value {
          var s :| InRange(pairs[0].0, pairs[0].1, s) && Location(tables, s) == Ok(m);
        } else {
          var k, s :| 0 <= k < |pairs[1..]| && InRange(pairs[1..][k].0, pairs[1..][k].1, s) && Location(tables, s) == Ok(m);
          assert pairs[k + 1] == pairs[1..][k];
        }
      }
    }
  }

  /** Part 2 answer: the lowest location over every seed of every range, or
      the largest 64-bit value when no range holds a seed. */
  function LowestRangeLocation(lines: seq<string>): (r: Result<int>)
    ensures r.Ok? <==> (|lines| > 0 && InitializeMaps(lines).Ok? && SeedPairs(SplitOn(lines[0], " "), 1).Ok? &&
                        AllLocated(InitializeMaps(lines).value, SeedPairs(SplitOn(lines[0], " "), 1).value))
    ensures r.Ok? ==> r.value <= MaxInt64
    ensures r.Ok? ==>
      var tables, pairs := InitializeMaps(lines).value, SeedPairs(SplitOn(lines[0], " "), 1).value;
      (forall k, s :: 0 <= k < |pairs| && InRange(pairs[k].0, pairs[k].1, s) ==> r.value <= Location(tables, s).value) &&
      (r.value == MaxInt64 ||
       exists k, s :: 0 <= k < |pairs| && InRange(pairs[k].0, pairs[k].1, s) && Location(tables, s) == Ok(r.value))
  {
    if |lines| == 0 then Fatal("index out of range [0] with length 0")
    else
      var tables :- InitializeMaps(lines);
      var pairs :- SeedPairs(SplitOn(lines[0], " "), 1);
      var r := PairsMin(tables, pairs, MaxInt64);
      if r.Ok? then
        PairsMinAttained(tables, pairs, MaxInt64);
        r
      else r
  }

  /** The seed-to-soil table of the puzzle's example, sorted: seed 79 becomes
      soil 81, seed 14 stays 14, seed 99 becomes 51. */
  lemma ExampleLookups()
    ensures CalculateValue([MapEntry(52, 50, 48), MapEntry(50, 98, 2)], 79) == Ok(81)
    ensures CalculateValue([MapEntry(52, 50, 48), MapEntry(50, 98, 2)], 14) == Ok(14)
    ensures CalculateValue([MapEntry(52, 50, 48), MapEntry(50, 98, 2)], 99) == Ok(51)
    ensures CalculateValue([MapEntry(52, 50, 48), MapEntry(50, 98, 2)], 100) == Ok(100)
  {
    var t := [MapEntry(52, 50, 48), MapEntry(50, 98, 2)];
    assert Candidate(t, 79, 0) == 0;
    assert Candidate(t, 99, 0) == 1;
  }
}
