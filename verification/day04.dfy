/** Day 4: scratchcards. Part 1 scores each card by its count of winning
    numbers; part 2 lets each card win copies of the cards after it
    (04/part1/part1.go, 04/part2.go). */
module Day04 {
  import opened Outcome
  import opened Text

  function Pow2(n: nat): (p: nat)
    ensures p >= 1
  {
    if n == 0 then 1 else 2 * Pow2(n - 1)
  }

  /** `calculateScore`: 0 without a win, otherwise 2^(wins - 1). */
  function Score(wins: nat): (s: nat)
    ensures wins == 0 <==> s == 0
    ensures wins == 1 ==> s == 1
  {
    if wins == 0 then 0 else Pow2(wins - 1)
  }

  /** One more win doubles a non-zero score. */
  lemma ScoreDoubles(wins: nat)
    requires wins >= 1
    ensures Score(wins + 1) == 2 * Score(wins)
  {
  }

  /** Whether a card token counts as a win: it is non-empty and listed among
      the winning tokens. Splitting on single spaces leaves empty tokens
      wherever numbers are padded, and those never count. */
  predicate Wins(token: string, winning: seq<string>) {
    |token| != 0 && token in winning
  }

  /** The number of card tokens that win. */
  function WinCount(card: seq<string>, winning: seq<string>): (n: nat)
    ensures n <= |card|
    decreases |card|
  {
    if |card| == 0 then 0
    else WinCount(card[..|card| - 1], winning) + (if Wins(card[|card| - 1], winning) then 1 else 0)
  }

  /** The win count is the number of winning positions of the card. */
  lemma {:induction false} WinCountMeaning(card: seq<string>, winning: seq<string>)
    ensures WinCount(card, winning) == |set k | 0 <= k < |card| && Wins(card[k], winning)|
    decreases |card|
  {
    var s := set k | 0 <= k < |card| && Wins(card[k], winning);
    if |card| > 0 {
      var init := card[..|card| - 1];
      WinCountMeaning(init, winning);
      var t := set k | 0 <= k < |init| && Wins(init[k], winning);
      if Wins(card[|card| - 1], winning) {
        assert s == t + {|card| - 1};
      } else {
        assert s == t;
      }
    } else {
      assert s == {};
    }
  }

  /** Empty tokens never win, wherever they sit. */
  lemma {:induction false} EmptyTokensIgnored(a: seq<string>, b: seq<string>, winning: seq<string>)
    ensures WinCount(a + [""] + b, winning) == WinCount(a + b, winning)
    decreases |b|
  {
    if |b| == 0 {
      assert a + [""] + b == a + [""];
      assert (a + [""])[..|a|] == a;
      assert a + b == a;
    } else {
      var b0 := b[..|b| - 1];
      assert (a + [""] + b)[..|a + [""] + b| - 1] == a + [""] + b0;
      assert (a + b)[..|a + b| - 1] == a + b0;
      EmptyTokensIgnored(a, b0, winning);
    }
  }

  /** The loop of `processRound` counting the winning tokens. */
  method CountWins(card: seq<string>, winning: seq<string>) returns (count: nat)
    ensures count == WinCount(card, winning)
  {
    count := 0;
    for k := 0 to |card|
      invariant count == WinCount(card[..k], winning)
    {
      assert card[..k + 1][..k] == card[..k];
      if |card[k]| != 0 && card[k] in winning {
        count := count + 1;
      }
    }
    assert card[..|card|] == card;
  }

  /** The card tokens and the winning tokens of a line "Card n: a b | c d".
      A line without ": " or without '|' is fatal (an index out of range). */
  function Tokens(line: string): (r: Result<(seq<string>, seq<string>)>)
    ensures r.Fatal? <==> |SplitOn(line, ": ")| < 2 || |SplitOn(SplitOn(line, ": ")[1], "|")| < 2
    ensures r.Ok? ==>
      var data := SplitOn(SplitOn(line, ": ")[1], "|");
      r.value == (SplitOn(data[0], " "), SplitOn(data[1], " "))
  {
    var parts := SplitOn(line, ": ");
    if |parts| < 2 then Fatal("index out of range: no \": \" in the line")
    else
      var data := SplitOn(parts[1], "|");
      if |data| < 2 then Fatal("index out of range: no '|' in the game")
      else Ok((SplitOn(data[0], " "), SplitOn(data[1], " ")))
  }

  /** The number of winning numbers on a line. */
  function RoundWins(line: string): (r: Result<nat>)
    ensures r.Ok? <==> Tokens(line).Ok?
    ensures r.Ok? ==> r.value == WinCount(Tokens(line).value.0, Tokens(line).value.1)
  {
    var (card, winning) :- Tokens(line);
    Ok(WinCount(card, winning))
  }

  /** Part 1 `processRound`: the score of a line. */
  function RoundScore(line: string): (r: Result<nat>)
    ensures r.Ok? <==> RoundWins(line).Ok?
    ensures r.Ok? ==> r.value == Score(RoundWins(line).value)
  {
    var wins :- RoundWins(line);
    Ok(Score(wins))
  }

  /** Part 1 answer over the first `n` lines: their scores added up; fatal
      if any of them is. */
  function TotalPoints(lines: seq<string>, n: nat): (r: Result<nat>)
    requires n <= |lines|
    ensures r.Ok? <==> forall k :: 0 <= k < n ==> RoundScore(lines[k]).Ok?
    ensures r.Ok? && n > 0 ==> r.value >= RoundScore(lines[n - 1]).value
    decreases n
  {
    if n == 0 then Ok(0)
    else
      var before := TotalPoints(lines, n - 1);
      var last := RoundScore(lines[n - 1]);
      if before.Fatal? then Fatal(before.message)
      else if last.Fatal? then Fatal(last.message)
      else Ok(before.value + last.value)
  }

  /** A line whose numbers hold no common token scores 0; padding spaces
      never create a win. */
  lemma NoCommonTokenScoresZero(card: seq<string>, winning: seq<string>)
    requires forall k :: 0 <= k < |card| ==> card[k] !in winning
    ensures Score(WinCount(card, winning)) == 0
  {
    WinCountMeaning(card, winning);
    var s := set k | 0 <= k < |card| && Wins(card[k], winning);
    assert s == {};
  }

  // Part 2

  /** The scratchcard counts before any round: index 0 is 0 and every real
      card 1..n starts with one copy. */
  function InitialCards(n: nat): (cards: seq<nat>)
    ensures |cards| == n + 1
    ensures cards[0] == 0
    ensures forall i :: 1 <= i <= n ==> cards[i] == 1
  {
    seq(n + 1, i => if i == 0 then 0 else 1)
  }

  /** What part 2 `processRound` does to the counts: each of the `wins` cards
      after `round` that exists gains as many copies as `round` has; nothing
      else changes. */
  function Propagated(cards: seq<nat>, round: nat, wins: nat): (after: seq<nat>)
    ensures |after| == |cards|
    ensures forall i :: 0 <= i < |cards| ==> after[i] >= cards[i]
    ensures forall i :: 0 <= i <= round && i < |cards| ==> after[i] == cards[i]
  {
    seq(|cards|, i requires 0 <= i < |cards| =>
      if round < i <= round + wins then cards[i] + cards[round] else cards[i])
  }

  /** The propagation loop of part 2 `processRound`, with its early exit at
      the end of the array. */
  method Propagate(cards: seq<nat>, round: nat, wins: nat) returns (result: seq<nat>)
    ensures result == Propagated(cards, round, wins)
  {
    result := cards;
    var count := 0;
    while count < wins
      invariant 0 <= count <= wins
      invariant |result| == |cards|
      invariant forall i :: 0 <= i < |cards| ==>
        result[i] == if round < i <= round + count then cards[i] + cards[round] else cards[i]
      invariant count > 0 && round + count >= |cards| ==> round + count == |cards|
    {
      var i := round + 1 + count;
      if i >= |result| {
        break;
      }
      result := result[i := result[i] + result[round]];
      count := count + 1;
    }
  }

  /** The counts after the first `k` rounds of part 2, rounds numbered from 1. */
  function CardsAfter(wins: seq<nat>, k: nat): (cards: seq<nat>)
    requires k <= |wins|
    ensures |cards| == |wins| + 1 && cards[0] == 0
    ensures forall i :: 1 <= i < |cards| ==> cards[i] >= 1
    decreases k
  {
    if k == 0 then InitialCards(|wins|)
    else
      var before := CardsAfter(wins, k - 1);
      Propagated(before, k, wins[k - 1])
  }

  /** Once round j has run, the count of card j is final: later rounds only
      add to later cards. */
  lemma {:induction false} CountFinalAfterOwnRound(wins: seq<nat>, j: nat, k: nat)
    requires 1 <= j <= k <= |wins|
    ensures CardsAfter(wins, k)[j] == CardsAfter(wins, j)[j]
    decreases k
  {
    if k > j {
      CountFinalAfterOwnRound(wins, j, k - 1);
    }
  }

  /** Every real card is held at least once, so the total is at least the
      number of cards. */
  lemma {:induction false} SumAtLeastOnes(xs: seq<nat>, from: nat)
    requires forall i :: from <= i < |xs| ==> xs[i] >= 1
    ensures Sum(xs) >= |xs| - from && Sum(xs) >= 0
    decreases |xs|
  {
    if |xs| > 0 {
      var init := xs[..|xs| - 1];
      assert forall i :: 0 <= i < |init| ==> init[i] == xs[i];
      SumAtLeastOnes(init, from);
      assert Sum(xs) == Sum(init) + xs[|xs| - 1];
      assert xs[|xs| - 1] >= 0 && (|xs| - 1 >= from ==> xs[|xs| - 1] >= 1);
    } else {
      assert Sum(xs) == 0;
    }
  }

  /** The win counts of the first `n` lines, fatal if any of them is
      malformed. */
  function AllWins(lines: seq<string>, n: nat): (r: Result<seq<nat>>)
    requires n <= |lines|
    ensures r.Ok? <==> forall k :: 0 <= k < n ==> RoundWins(lines[k]).Ok?
    ensures r.Ok? ==> |r.value| == n
    ensures r.Ok? ==> forall k :: 0 <= k < n ==> r.value[k] == RoundWins(lines[k]).value
    decreases n
  {
    if n == 0 then Ok([])
    else
      var before := AllWins(lines, n - 1);
      var last := RoundWins(lines[n - 1]);
      if before.Fatal? then Fatal(before.message)
      else if last.Fatal? then Fatal(last.message)
      else Ok(before.value + [last.value])
  }

  /** The count of each real card 1..n once its own round has run. */
  function FinalCounts(wins: seq<nat>): (counts: seq<int>)
    ensures |counts| == |wins|
  {
    seq(|wins|, j requires 0 <= j < |wins| => FinalCount(wins, j + 1))
  }

  /** The count of card `j` once round `j` has run. */
  function FinalCount(wins: seq<nat>, j: nat): int
    requires 1 <= j <= |wins|
  {
    CardsAfter(wins, j)[j]
  }

  /** After all rounds, the counts are 0 for index 0 followed by every card's
      count as it stood after its own round. */
  lemma AllFinal(wins: seq<nat>)
    ensures CardsAfter(wins, |wins|) == [0] + FinalCounts(wins)
  {
    var cards := CardsAfter(wins, |wins|);
    var counts := [0] + FinalCounts(wins);
    assert |cards| == |counts|;
    forall j | 0 <= j < |cards| ensures cards[j] == counts[j] {
      if j > 0 {
        FinalCountAt(wins, j);
      }
    }
    assert cards == counts;
  }

  lemma FinalCountIndex(wins: seq<nat>, j: nat)
    requires 1 <= j <= |wins|
    ensures FinalCounts(wins)[j - 1] == FinalCount(wins, j)
  {
  }

  lemma FinalCountAt(wins: seq<nat>, j: nat)
    requires 1 <= j <= |wins|
    ensures CardsAfter(wins, |wins|)[j] == FinalCounts(wins)[j - 1]
  {
    FinalCountIndex(wins, j);
    CountFinalAfterOwnRound(wins, j, |wins|);
  }

  /** Part 2 answer: the total number of scratchcards held, every card
      counted as it stands once its own round has run. */
  function TotalScratchcards(lines: seq<string>): (r: Result<nat>)
    ensures r.Ok? <==> AllWins(lines, |lines|).Ok?
    ensures r.Ok? ==> r.value == Sum(FinalCounts(AllWins(lines, |lines|).value))
    ensures r.Ok? ==> r.value >= |lines|
  {
    var wins :- AllWins(lines, |lines|);
    var cards := CardsAfter(wins, |wins|);
    SumAtLeastOnes(cards, 1);
    AllFinal(wins);
    SumCons(0, FinalCounts(wins));
    Ok(Sum(cards))
  }
}
