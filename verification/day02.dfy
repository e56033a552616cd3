/** Day 2: game records "Game n: 3 blue, 4 red; 1 red, 2 green" are parsed
    into one cube count per subset (02/part1/part1.go, 02/part2.go). */
module Day02 {
  import opened Outcome
  import opened Text

  /** `gameSet`: the number of cubes of each colour shown in one subset. */
  datatype CubeSet = CubeSet(red: int, green: int, blue: int)

  const NoCubes := CubeSet(0, 0, 0)

  /** The bag of part 1: 12 red, 13 green and 14 blue cubes. */
  const Bag := CubeSet(12, 13, 14)

  datatype Colour = Red | Green | Blue

  /** The colour an entry names: the first of "red", "green", "blue" it contains. */
  function ColourOf(entry: string): (c: Result<Colour>)
    ensures c == Ok(Red) <==> Contains(entry, "red")
    ensures c == Ok(Green) <==> !Contains(entry, "red") && Contains(entry, "green")
    ensures c == Ok(Blue) <==> !Contains(entry, "red") && !Contains(entry, "green") && Contains(entry, "blue")
  {
    if Contains(entry, "red") then Ok(Red)
    else if Contains(entry, "green") then Ok(Green)
    else if Contains(entry, "blue") then Ok(Blue)
    else Fatal("The game record did not contain an expected color.")
  }

  function Get(s: CubeSet, c: Colour): int {
    match c
    case Red => s.red
    case Green => s.green
    case Blue => s.blue
  }

  function Set(s: CubeSet, c: Colour, n: int): (t: CubeSet)
    ensures Get(t, c) == n
    ensures forall d :: d != c ==> Get(t, d) == Get(s, d)
  {
    match c
    case Red => s.(red := n)
    case Green => s.(green := n)
    case Blue => s.(blue := n)
  }

  /** The count of an entry "n colour": its text before the first space. */
  function EntryCount(entry: string): Result<int> {
    ParseInt(SplitOn(entry, " ")[0])
  }

  /** One entry "n colour" of a subset, read. */
  datatype Entry = Entry(count: int, colour: Colour)

  /** One entry of a subset: the count is parsed first, then the colour. */
  function ParseEntry(entry: string): (r: Result<Entry>)
    ensures r.Ok? <==> EntryCount(entry).Ok? && ColourOf(entry).Ok?
    ensures r.Ok? ==> r.value == Entry(EntryCount(entry).value, ColourOf(entry).value)
    ensures EntryCount(entry).Fatal? ==> r == Fatal(EntryCount(entry).message)
  {
    var count :- EntryCount(entry);
    var colour :- ColourOf(entry);
    Ok(Entry(count, colour))
  }

  /** The entries read by `parse` and applied in order to a starting record,
      each overwriting the field of its colour with its count. */
  function ApplyEach(record: CubeSet, entries: seq<string>, parse: string -> Result<Entry>): Result<CubeSet>
    decreases |entries|
  {
    if |entries| == 0 then Ok(record)
    else
      var e :- parse(entries[0]);
      ApplyEach(Set(record, e.colour, e.count), entries[1..], parse)
  }

  /** The entries of one subset applied in order to a starting record. */
  function ApplyEntries(record: CubeSet, entries: seq<string>): Result<CubeSet> {
    ApplyEach(record, entries, ParseEntry)
  }

  /** Every entry is read by `parse`. */
  predicate ParsedBy(entries: seq<string>, parse: string -> Result<Entry>) {
    forall k :: 0 <= k < |entries| ==> parse(entries[k]).Ok?
  }

  /** Every entry carries a count and a colour. */
  predicate WellFormed(entries: seq<string>) {
    ParsedBy(entries, ParseEntry)
  }

  /** The value that the entries set for colour `c`: that of the last entry
      naming it, or `otherwise` when none does. */
  function LastCount(entries: seq<string>, parse: string -> Result<Entry>, c: Colour, otherwise: int): int
    requires ParsedBy(entries, parse)
    decreases |entries|
  {
    if |entries| == 0 then otherwise
    else
      var last := parse(entries[|entries| - 1]).value;
      if last.colour == c then last.count
      else LastCount(entries[..|entries| - 1], parse, c, otherwise)
  }

  function LastCountFor(entries: seq<string>, c: Colour, otherwise: int): int
    requires WellFormed(entries)
  {
    LastCount(entries, ParseEntry, c, otherwise)
  }

  /** Applying the entries succeeds exactly when every entry is well formed, and
      then each colour holds the count of the last entry naming it; colours no
      entry names keep their value. */
  lemma ApplyEntriesMeaning(record: CubeSet, entries: seq<string>)
    ensures ApplyEntries(record, entries).Ok? <==> WellFormed(entries)
    ensures WellFormed(entries) ==> forall c :: Get(ApplyEntries(record, entries).value, c) == LastCountFor(entries, c, Get(record, c))
  {
    ApplyEachMeaning(record, entries, ParseEntry);
  }

  lemma {:induction false} ApplyEachMeaning(record: CubeSet, entries: seq<string>, parse: string -> Result<Entry>)
    ensures ApplyEach(record, entries, parse).Ok? <==> ParsedBy(entries, parse)
    ensures ParsedBy(entries, parse) ==>
      forall c :: Get(ApplyEach(record, entries, parse).value, c) == LastCount(entries, parse, c, Get(record, c))
    decreases |entries|
  {
    if |entries| > 0 {
      var first := parse(entries[0]);
      var rest := entries[1..];
      if first.Ok? {
        var next := Set(record, first.value.colour, first.value.count);
        ApplyEachMeaning(next, rest, parse);
        assert ParsedBy(entries, parse) <==> ParsedBy(rest, parse) by {
          assert forall k :: 0 <= k < |rest| ==> rest[k] == entries[k + 1];
        }
        if ParsedBy(entries, parse) {
          forall c ensures Get(ApplyEach(record, entries, parse).value, c) == LastCount(entries, parse, c, Get(record, c)) {
            LastCountForCons(entries, parse, c, Get(record, c));
          }
        }
      }
    }
  }

  /** Looking for the last entry naming a colour, a first entry is overridden by
      any later one. */
  lemma {:induction false} LastCountForCons(entries: seq<string>, parse: string -> Result<Entry>, c: Colour, otherwise: int)
    requires |entries| > 0 && ParsedBy(entries, parse)
    ensures ParsedBy(entries[1..], parse)
    ensures LastCount(entries, parse, c, otherwise) ==
      LastCount(entries[1..], parse, c,
        if parse(entries[0]).value.colour == c then parse(entries[0]).value.count else otherwise)
    decreases |entries|
  {
    var rest := entries[1..];
    assert forall k :: 0 <= k < |rest| ==> rest[k] == entries[k + 1];
    if |entries| > 1 {
      var init := entries[..|entries| - 1];
      assert forall k :: 0 <= k < |init| ==> init[k] == entries[k];
      LastCountForCons(init, parse, c, otherwise);
      assert init[1..] == rest[..|rest| - 1];
      assert entries[|entries| - 1] == rest[|rest| - 1];
    }
  }

  /** One subset "3 blue, 4 red": its ", "-separated entries applied to zero counts. */
  function ParseSubset(subset: string): (r: Result<CubeSet>)
    ensures r.Ok? <==> WellFormed(SplitOn(subset, ", "))
  {
    ApplyEntriesMeaning(NoCubes, SplitOn(subset, ", "));
    ApplyEntries(NoCubes, SplitOn(subset, ", "))
  }

  /** Every subset parsed in order; the first failure stops the program. */
  function ParseSubsets(subsets: seq<string>): (r: Result<seq<CubeSet>>)
    ensures r.Ok? <==> forall k :: 0 <= k < |subsets| ==> ParseSubset(subsets[k]).Ok?
    ensures r.Ok? ==> |r.value| == |subsets|
    ensures r.Ok? ==> forall k :: 0 <= k < |subsets| ==> r.value[k] == ParseSubset(subsets[k]).value
  {
    ParseEach(subsets, ParseSubset)
  }

  /** The text after "Game n: ", split into its "; "-separated subsets; a record
      without ": " indexes past the end of the split and stops the program. */
  function Subsets(gameData: string): (r: Result<seq<string>>)
    ensures r.Fatal? <==> |SplitOn(gameData, ": ")| < 2
  {
    var parts := SplitOn(gameData, ": ");
    if |parts| < 2 then Fatal("index out of range")
    else Ok(SplitOn(parts[1], "; "))
  }

  /** `parseGameData`: one record per subset, in order. */
  function ParseGameData(gameData: string): (r: Result<seq<CubeSet>>)
    ensures Subsets(gameData).Fatal? ==> r == Fatal(Subsets(gameData).message)
    ensures r.Ok? ==> Subsets(gameData).Ok? && |r.value| == |Subsets(gameData).value|
  {
    var subsets :- Subsets(gameData);
    ParseSubsets(subsets)
  }

  /** A game parses exactly when it has subsets and each of them parses, and
      then it holds one record per subset, each the parse of its subset. */
  lemma ParseGameDataMeaning(gameData: string)
    ensures ParseGameData(gameData).Ok? <==>
      Subsets(gameData).Ok? && forall k :: 0 <= k < |Subsets(gameData).value| ==> ParseSubset(Subsets(gameData).value[k]).Ok?
    ensures ParseGameData(gameData).Ok? ==> |ParseGameData(gameData).value| == |Subsets(gameData).value|
    ensures ParseGameData(gameData).Ok? ==> forall k :: 0 <= k < |ParseGameData(gameData).value| ==>
      ParseSubset(Subsets(gameData).value[k]) == Ok(ParseGameData(gameData).value[k])
  {
  }

  /** A subset fits in the bag when no colour exceeds the bag's count. */
  predicate Fits(s: CubeSet, bag: CubeSet) {
    s.red <= bag.red && s.green <= bag.green && s.blue <= bag.blue
  }

  /** The possibility test in part 1's `main`: scan the subsets, stopping at the first one
      that needs more cubes of some colour than the bag holds. */
  method IsPossible(game: seq<CubeSet>) returns (possible: bool)
    ensures possible <==> forall k :: 0 <= k < |game| ==> Fits(game[k], Bag)
  {
    possible := true;
    var k := 0;
    while k < |game|
      invariant 0 <= k <= |game|
      invariant forall j :: 0 <= j < k ==> Fits(game[j], Bag)
    {
      if game[k].red > Bag.red || game[k].green > Bag.green || game[k].blue > Bag.blue {
        possible := false;
        break;
      }
      k := k + 1;
    }
  }

  predicate Possible(game: seq<CubeSet>) {
    forall k :: 0 <= k < |game| ==> Fits(game[k], Bag)
  }

  /** The line numbers, counted from 1, of the possible games, and 0 in place
      of every other game. */
  function PossibleNumbers(games: seq<seq<CubeSet>>): (ns: seq<int>)
    ensures |ns| == |games|
  {
    seq(|games|, k requires 0 <= k < |games| => if Possible(games[k]) then k + 1 else 0)
  }

  /** Part 1's answer over the first `n` lines: the sum of the (1-based) line
      numbers of the possible games. */
  function PossibleGameSum(lines: seq<string>, n: nat): (r: Result<int>)
    requires n <= |lines|
    ensures r.Ok? <==> forall k :: 0 <= k < n ==> ParseGameData(lines[k]).Ok?
    ensures r.Ok? ==> r.value == Sum(PossibleNumbers(ParseEach(lines[..n], ParseGameData).value))
    ensures r.Ok? ==> 0 <= r.value <= n * (n + 1) / 2
  {
    PossibleSum(lines, n, ParseGameData)
  }

  /** The loop of part 1's `main` with the line parser `parse`. */
  function PossibleSum(lines: seq<string>, n: nat, parse: string -> Result<seq<CubeSet>>): (r: Result<int>)
    requires n <= |lines|
    ensures r.Ok? <==> forall k :: 0 <= k < n ==> parse(lines[k]).Ok?
    ensures r.Ok? ==> r.value == Sum(PossibleNumbers(ParseEach(lines[..n], parse).value))
    ensures r.Ok? ==> 0 <= r.value <= n * (n + 1) / 2
    decreases n
  {
    if n == 0 then Ok(0)
    else
      var before := PossibleSum(lines, n - 1, parse);
      var game := parse(lines[n - 1]);
      if before.Fatal? then Fatal(before.message)
      else if game.Fatal? then Fatal(game.message)
      else
        TriangleStep(n);
        PossibleNumbersStep(lines, n, parse);
        Ok(before.value + if Possible(game.value) then n else 0)
  }

  /** One more game adds its number when it is possible. */
  lemma PossibleNumbersStep(lines: seq<string>, n: nat, parse: string -> Result<seq<CubeSet>>)
    requires 1 <= n <= |lines| && forall k :: 0 <= k < n ==> parse(lines[k]).Ok?
    ensures Sum(PossibleNumbers(ParseEach(lines[..n], parse).value)) ==
      Sum(PossibleNumbers(ParseEach(lines[..n - 1], parse).value)) + if Possible(parse(lines[n - 1]).value) then n else 0
  {
    var now := PossibleNumbers(ParseEach(lines[..n], parse).value);
    var before := PossibleNumbers(ParseEach(lines[..n - 1], parse).value);
    assert now[..n - 1] == before;
  }

  lemma TriangleStep(n: nat)
    requires n >= 1
    ensures (n - 1) * n / 2 + n == n * (n + 1) / 2
  {
    assert n * (n + 1) == (n - 1) * n + 2 * n;
  }

  /** The largest value of a colour over the subsets, starting from zero. */
  function MaxOf(game: seq<CubeSet>, c: Colour): (m: int)
    ensures m >= 0
    decreases |game|
  {
    if |game| == 0 then 0
    else
      var rest := MaxOf(game[..|game| - 1], c);
      var last := Get(game[|game| - 1], c);
      if last > rest then last else rest
  }

  /** The maximum bounds every subset's count of the colour, and is either zero
      or the count of some subset. */
  lemma {:induction false} MaxOfMeaning(game: seq<CubeSet>, c: Colour)
    ensures forall k :: 0 <= k < |game| ==> Get(game[k], c) <= MaxOf(game, c)
    ensures MaxOf(game, c) == 0 || exists k :: 0 <= k < |game| && Get(game[k], c) == MaxOf(game, c)
    decreases |game|
  {
    if |game| > 0 {
      var init := game[..|game| - 1];
      MaxOfMeaning(init, c);
      assert forall k :: 0 <= k < |init| ==> init[k] == game[k];
      if MaxOf(game, c) != 0 && MaxOf(game, c) == MaxOf(init, c) {
        var k :| 0 <= k < |init| && Get(init[k], c) == MaxOf(init, c);
        assert Get(game[k], c) == MaxOf(game, c);
      }
    }
  }

  /** The per-colour maxima of part 2's `main`: the fewest cubes of each colour
      that make the game possible. */
  method Maxima(game: seq<CubeSet>) returns (m: CubeSet)
    ensures m == CubeSet(MaxOf(game, Red), MaxOf(game, Green), MaxOf(game, Blue))
    ensures forall k :: 0 <= k < |game| ==> Fits(game[k], m)
    ensures Fewest(game, m)
  {
    m := NoCubes;
    var k := 0;
    while k < |game|
      invariant 0 <= k <= |game|
      invariant m == CubeSet(MaxOf(game[..k], Red), MaxOf(game[..k], Green), MaxOf(game[..k], Blue))
    {
      assert game[..k + 1][..k] == game[..k];
      m := CubeSet(
        if game[k].red > m.red then game[k].red else m.red,
        if game[k].green > m.green then game[k].green else m.green,
        if game[k].blue > m.blue then game[k].blue else m.blue);
      k := k + 1;
    }
    assert game[..k] == game;
    MaxOfMeaning(game, Red);
    MaxOfMeaning(game, Green);
    MaxOfMeaning(game, Blue);
    forall j | 0 <= j < |game| ensures Fits(game[j], m) {
      assert Get(game[j], Red) <= MaxOf(game, Red);
      assert Get(game[j], Green) <= MaxOf(game, Green);
      assert Get(game[j], Blue) <= MaxOf(game, Blue);
    }
  }

  /** `m` holds the fewest cubes of each colour that make the game possible:
      every subset fits, and each count is zero or shown by some subset. */
  ghost predicate Fewest(game: seq<CubeSet>, m: CubeSet) {
    (forall k :: 0 <= k < |game| ==> Fits(game[k], m)) &&
    forall c :: Get(m, c) >= 0 && (Get(m, c) == 0 || exists k :: 0 <= k < |game| && Get(game[k], c) == Get(m, c))
  }

  /** The fewest cubes are the per-colour maxima. */
  lemma FewestIsMaxima(game: seq<CubeSet>, m: CubeSet)
    requires Fewest(game, m)
    ensures m == CubeSet(MaxOf(game, Red), MaxOf(game, Green), MaxOf(game, Blue))
  {
    forall c ensures Get(m, c) == MaxOf(game, c) {
      MaxOfMeaning(game, c);
      if Get(m, c) != 0 {
        var k :| 0 <= k < |game| && Get(game[k], c) == Get(m, c);
      }
      if MaxOf(game, c) != 0 {
        var k :| 0 <= k < |game| && Get(game[k], c) == MaxOf(game, c);
        assert Fits(game[k], m);
      }
    }
    assert Get(m, Red) == MaxOf(game, Red);
    assert Get(m, Green) == MaxOf(game, Green);
    assert Get(m, Blue) == MaxOf(game, Blue);
  }

  /** The power of a game: the product of the fewest cubes of each colour
      that make it possible. */
  function Power(game: seq<CubeSet>): (p: int)
    ensures p >= 0
    ensures forall m :: Fewest(game, m) ==> p == m.red * m.green * m.blue
  {
    var r, g, b := MaxOf(game, Red), MaxOf(game, Green), MaxOf(game, Blue);
    assert r * g >= 0;
    assert forall m :: Fewest(game, m) ==> m == CubeSet(r, g, b) by {
      forall m | Fewest(game, m) ensures m == CubeSet(r, g, b) {
        FewestIsMaxima(game, m);
      }
    }
    r * g * b
  }

  /** A colour that no subset shows a positive count of makes the power zero. */
  lemma PowerZero(game: seq<CubeSet>, c: Colour)
    requires forall k :: 0 <= k < |game| ==> Get(game[k], c) <= 0
    ensures Power(game) == 0
  {
    var r, g, b := MaxOf(game, Red), MaxOf(game, Green), MaxOf(game, Blue);
    assert Power(game) == r * g * b;
    assert MaxOf(game, c) == 0 by {
      MaxOfMeaning(game, c);
    }
    ZeroFactor(r, g, b);
  }

  lemma ZeroFactor(r: int, g: int, b: int)
    requires r == 0 || g == 0 || b == 0
    ensures r * g * b == 0
  {
  }

  /** The powers of the games, in order. */
  function Powers(games: seq<seq<CubeSet>>): (ps: seq<int>)
    ensures |ps| == |games|
  {
    seq(|games|, k requires 0 <= k < |games| => Power(games[k]))
  }

  /** Part 2's answer over the first `n` lines: the sum of the powers. */
  function PowerSum(lines: seq<string>, n: nat): (r: Result<int>)
    requires n <= |lines|
    ensures r.Ok? <==> forall k :: 0 <= k < n ==> ParseGameData(lines[k]).Ok?
    ensures r.Ok? ==> r.value == Sum(Powers(ParseEach(lines[..n], ParseGameData).value))
    ensures r.Ok? ==> r.value >= 0
  {
    PowerSumWith(lines, n, ParseGameData)
  }

  /** The loop of part 2's `main` with the line parser `parse`. */
  function PowerSumWith(lines: seq<string>, n: nat, parse: string -> Result<seq<CubeSet>>): (r: Result<int>)
    requires n <= |lines|
    ensures r.Ok? <==> forall k :: 0 <= k < n ==> parse(lines[k]).Ok?
    ensures r.Ok? ==> r.value == Sum(Powers(ParseEach(lines[..n], parse).value))
    ensures r.Ok? ==> r.value >= 0
    decreases n
  {
    if n == 0 then Ok(0)
    else
      var before := PowerSumWith(lines, n - 1, parse);
      var game := parse(lines[n - 1]);
      if before.Fatal? then Fatal(before.message)
      else if game.Fatal? then Fatal(game.message)
      else
        PowersStep(lines, n, parse);
        Ok(before.value + Power(game.value))
  }

  /** One more game adds its power. */
  lemma PowersStep(lines: seq<string>, n: nat, parse: string -> Result<seq<CubeSet>>)
    requires 1 <= n <= |lines| && forall k :: 0 <= k < n ==> parse(lines[k]).Ok?
    ensures Sum(Powers(ParseEach(lines[..n], parse).value)) ==
      Sum(Powers(ParseEach(lines[..n - 1], parse).value)) + Power(parse(lines[n - 1]).value)
  {
    var now := Powers(ParseEach(lines[..n], parse).value);
    var before := Powers(ParseEach(lines[..n - 1], parse).value);
    assert now[..n - 1] == before;
  }

  /** A colour that no entry mentions stays zero in its subset. */
  lemma UnmentionedColourIsZero(subset: string, c: Colour)
    requires ParseSubset(subset).Ok?
    requires forall k :: 0 <= k < |SplitOn(subset, ", ")| ==> ColourOf(SplitOn(subset, ", ")[k]) != Ok(c)
    ensures Get(ParseSubset(subset).value, c) == 0
  {
    var entries := SplitOn(subset, ", ");
    ApplyEntriesMeaning(NoCubes, entries);
    forall k | 0 <= k < |entries| ensures ParseEntry(entries[k]).value.colour != c {
      assert ColourOf(entries[k]) != Ok(c);
    }
    UnnamedColour(entries, ParseEntry, c, 0);
  }

  lemma {:induction false} UnnamedColour(entries: seq<string>, parse: string -> Result<Entry>, c: Colour, otherwise: int)
    requires ParsedBy(entries, parse)
    requires forall k :: 0 <= k < |entries| ==> parse(entries[k]).value.colour != c
    ensures LastCount(entries, parse, c, otherwise) == otherwise
    decreases |entries|
  {
    if |entries| > 0 {
      var init := entries[..|entries| - 1];
      assert forall k :: 0 <= k < |init| ==> init[k] == entries[k];
      UnnamedColour(init, parse, c, otherwise);
    }
  }
}
