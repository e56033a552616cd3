/** Day 7: Camel Cards. Hands of five cards are classified (high card up to
    five of a kind), ordered by type and then card by card, and each hand wins
    its bid times its rank. Part 2 reads 'J' as a joker: the lowest card, which
    upgrades the hand's type (07/part1/part1.go, 07/part2.go). */
module Day07 {
  import opened Outcome
  import opened Text

  /** `handType` / `pokerHandValue`, weakest first. */
  datatype HandType = HighCard | OnePair | TwoPair | ThreeOfAKind | FullHouse | FourOfAKind | FiveOfAKind

  /** The `iota` value of a hand type. */
  function Rank(t: HandType): nat {
    match t
    case HighCard => 0
    case OnePair => 1
    case TwoPair => 2
    case ThreeOfAKind => 3
    case FullHouse => 4
    case FourOfAKind => 5
    case FiveOfAKind => 6
  }

  /** Part 1 reads 'J' as a jack, part 2 as a joker. */
  datatype Rules = Jacks | Jokers

  // Card counts

  /** How often card `c` occurs in the hand: the entry of the program's map. */
  function Count(s: string, c: char): (n: nat)
    ensures n <= |s|
    decreases |s|
  {
    if |s| == 0 then 0 else Count(s[..|s| - 1], c) + if s[|s| - 1] == c then 1 else 0
  }

  /** The distinct cards of the hand: the keys of the program's map. */
  function Chars(s: string): set<char> {
    set i | 0 <= i < |s| :: s[i]
  }

  /** `containsValue(mapVals, v)`: some card occurs exactly `v` times. */
  predicate HasCount(s: string, v: int) {
    exists i :: 0 <= i < |s| && Count(s, s[i]) == v
  }

  /** The cards that are neither `a` nor `b`. */
  function CountOther(s: string, a: char, b: char): nat
    decreases |s|
  {
    if |s| == 0 then 0
    else CountOther(s[..|s| - 1], a, b) + if s[|s| - 1] != a && s[|s| - 1] != b then 1 else 0
  }

  lemma {:induction false} CountSplit(s: string, a: char, b: char)
    requires a != b
    ensures Count(s, a) + Count(s, b) + CountOther(s, a, b) == |s|
    ensures CountOther(s, a, b) == 0 <==> forall i :: 0 <= i < |s| ==> s[i] == a || s[i] == b
    decreases |s|
  {
    if |s| > 0 {
      var init := s[..|s| - 1];
      CountSplit(init, a, b);
      assert forall i :: 0 <= i < |init| ==> init[i] == s[i];
    }
  }

  lemma {:induction false} CountPositive(s: string, c: char)
    ensures Count(s, c) > 0 <==> c in Chars(s)
    ensures Count(s, c) == |s| <==> forall i :: 0 <= i < |s| ==> s[i] == c
    decreases |s|
  {
    if |s| > 0 {
      var init := s[..|s| - 1];
      CountPositive(init, c);
      assert forall i :: 0 <= i < |init| ==> init[i] == s[i];
      assert Chars(s) == Chars(init) + {s[|s| - 1]};
    } else {
      assert Chars(s) == {};
    }
  }

  lemma {:induction false} CharsBound(s: string)
    ensures |Chars(s)| <= |s|
    decreases |s|
  {
    if |s| > 0 {
      var init := s[..|s| - 1];
      CharsBound(init);
      assert Chars(s) == Chars(init) + {s[|s| - 1]};
    } else {
      assert Chars(s) == {};
    }
  }

  /** A card occurring `n` times leaves room for at most |s| - n + 1 distinct
      cards. */
  lemma {:induction false} DistinctBound(s: string, c: char)
    requires c in Chars(s)
    ensures |Chars(s)| + Count(s, c) <= |s| + 1
    decreases |s|
  {
    var init := s[..|s| - 1];
    var x := s[|s| - 1];
    assert Chars(s) == Chars(init) + {x};
    CountPositive(init, c);
    if c in Chars(init) {
      DistinctBound(init, c);
    } else {
      CharsBound(init);
    }
  }

  lemma SameSizeSubset(a: set<char>, b: set<char>)
    requires a <= b && |a| == |b|
    ensures a == b
  {
    assert |b - a| == |b| - |a|;
  }

  /** Cards that all are `a` or `b` make at most two distinct cards. */
  lemma CharsWithin(s: string, a: char, b: char)
    requires forall i :: 0 <= i < |s| ==> s[i] == a || s[i] == b
    ensures Chars(s) <= {a, b}
  {
  }

  /** Two cards that fill the hand are all its distinct cards, and two
      distinct cards that are all of them fill it. */
  lemma PairCounts(s: string, a: char, b: char)
    requires a != b
    ensures Count(s, a) + Count(s, b) == |s| ==> |Chars(s)| <= 2
    ensures |Chars(s)| == 2 && a in Chars(s) && b in Chars(s) ==> Count(s, a) + Count(s, b) == |s|
  {
    CountSplit(s, a, b);
    if Count(s, a) + Count(s, b) == |s| {
      CharsWithin(s, a, b);
      SubsetSize(Chars(s), {a, b});
    }
    if |Chars(s)| == 2 && a in Chars(s) && b in Chars(s) {
      SameSizeSubset({a, b}, Chars(s));
      assert forall k :: 0 <= k < |s| ==> s[k] in Chars(s);
    }
  }

  // Classification

  /** `compute` without the length check: the branches in the program's order. */
  function BaseType(s: string): HandType {
    var distinct := |Chars(s)|;
    if distinct == 1 then FiveOfAKind
    else if distinct == 5 then HighCard
    else if HasCount(s, 4) then FourOfAKind
    else if HasCount(s, 3) then (if distinct == 2 then FullHouse else ThreeOfAKind)
    else if distinct == 3 then TwoPair
    else OnePair
  }

  /** Part 1 `compute`: only five-card hands are classified. */
  function Classify(s: string): (r: Result<HandType>)
    ensures r.Ok? <==> |s| == 5
    ensures r.Ok? ==> r.value == BaseType(s)
  {
    if |s| != 5 then Fatal("Improper input: " + s) else Ok(BaseType(s))
  }

  /** A hand with one distinct card holds nothing else. */
  lemma OneDistinct(s: string, j: int)
    requires |Chars(s)| == 1 && 0 <= j < |s|
    ensures s[j] == s[0]
  {
    assert s[0] in Chars(s) && s[j] in Chars(s);
    if s[j] != s[0] {
      SubsetSize({s[0], s[j]}, Chars(s));
    }
  }

  lemma SubsetSize(a: set<char>, b: set<char>)
    requires a <= b
    ensures |a| <= |b|
  {
    assert b == a + (b - a);
  }

  /** `compute` calls a five-card hand five of a kind exactly when one card
      occurs five times. */
  lemma FiveOfAKindByCounts(s: string)
    requires |s| == 5
    ensures BaseType(s) == FiveOfAKind <==> HasCount(s, 5)
  {
    if HasCount(s, 5) {
      var i :| 0 <= i < 5 && Count(s, s[i]) == 5;
      CountPositive(s, s[i]);
      CharsWithin(s, s[i], s[i]);
      SubsetSize(Chars(s), {s[i]});
      assert s[0] in Chars(s);
      assert |Chars(s)| == 1;
    }
    if |Chars(s)| == 1 {
      forall j | 0 <= j < 5 ensures s[j] == s[0] {
        OneDistinct(s, j);
      }
      CountPositive(s, s[0]);
      assert Count(s, s[0]) == 5;
      assert HasCount(s, 5);
    }
  }

  /** `compute` calls a five-card hand a high card exactly when every card
      occurs once. */
  lemma HighCardByCounts(s: string)
    requires |s| == 5
    ensures BaseType(s) == HighCard <==> forall i :: 0 <= i < 5 ==> Count(s, s[i]) == 1
  {
    if |Chars(s)| == 5 {
      forall j | 0 <= j < 5 ensures Count(s, s[j]) == 1 {
        assert s[j] in Chars(s);
        DistinctBound(s, s[j]);
        CountPositive(s, s[j]);
      }
    }
    if forall i :: 0 <= i < 5 ==> Count(s, s[i]) == 1 {
      CharsBound(s);
      if |Chars(s)| < 5 {
        PigeonholeRepeat(s);
      }
      assert s[0] in Chars(s);
    }
  }

  /** Fewer distinct cards than cards means some card repeats. */
  lemma {:induction false} PigeonholeRepeat(s: string)
    requires |Chars(s)| < |s|
    ensures exists i :: 0 <= i < |s| && Count(s, s[i]) >= 2
    decreases |s|
  {
    var init := s[..|s| - 1];
    var x := s[|s| - 1];
    assert Chars(s) == Chars(init) + {x};
    assert forall i :: 0 <= i < |init| ==> init[i] == s[i];
    CountPositive(init, x);
    if x in Chars(init) {
      assert Count(s, x) >= 2;
    } else {
      CharsBound(init);
      assert |Chars(init)| < |init|;
      PigeonholeRepeat(init);
      var i :| 0 <= i < |init| && Count(init, init[i]) >= 2;
      assert Count(s, s[i]) >= 2;
    }
  }

  // Jokers

  /** `computeWildcard`: the type a hand reaches when its `jokers` jokers join
      the cards they help most. Combinations outside the table panic. */
  function Wildcard(t: HandType, jokers: int): (r: Result<HandType>)
    ensures jokers == 0 ==> r == Ok(t)
    ensures jokers == 5 ==> r == Ok(FiveOfAKind)
    ensures r.Ok? && 1 <= jokers <= 4 ==> Rank(r.value) > Rank(t)
    ensures r.Ok? ==> Rank(r.value) >= Rank(t)
  {
    if jokers == 0 then Ok(t)
    else if jokers == 5 then Ok(FiveOfAKind)
    else if jokers == 1 then
      match t
      case HighCard => Ok(OnePair)
      case OnePair => Ok(ThreeOfAKind)
      case TwoPair => Ok(FullHouse)
      case ThreeOfAKind => Ok(FourOfAKind)
      case FourOfAKind => Ok(FiveOfAKind)
      case _ => Fatal("Unexpected hand type with 1 wildcard")
    else if jokers == 2 then
      match t
      case OnePair => Ok(ThreeOfAKind)
      case TwoPair => Ok(FourOfAKind)
      case FullHouse => Ok(FiveOfAKind)
      case _ => Fatal("Unexpected hand type with 2 wildcards")
    else if jokers == 3 then
      match t
      case ThreeOfAKind => Ok(FourOfAKind)
      case FullHouse => Ok(FiveOfAKind)
      case _ => Fatal("Unexpected hand type with 3 wildcards")
    else if jokers == 4 then
      match t
      case FourOfAKind => Ok(FiveOfAKind)
      case _ => Fatal("Unexpected hand type with 4 wildcards")
    else Fatal("Unexpected number of wildcards")
  }

  /** Part 2 `constructHand`: classify with 'J' as an ordinary card, then
      upgrade by the number of jokers. */
  function ClassifyWithJokers(s: string): (r: Result<HandType>)
    ensures |s| != 5 ==> r.Fatal?
    ensures r.Ok? ==> Rank(r.value) >= Rank(BaseType(s))
  {
    if |s| != 5 then Fatal("Improper input: " + s)
    else if |Chars(s)| == 1 then Ok(FiveOfAKind)
    else Wildcard(BaseType(s), Count(s, 'J'))
  }

  /** The joker count never falls outside the table for the type the hand has
      when 'J' is read as a jack: every five-card hand is classified. */
  lemma JokerTableTotal(s: string)
    requires |s| == 5
    ensures ClassifyWithJokers(s).Ok?
  {
    var distinct := |Chars(s)|;
    var j := Count(s, 'J');
    CountPositive(s, 'J');
    if distinct == 1 {
    } else if distinct == 5 {
      if j > 0 {
        DistinctBound(s, 'J');
      }
    } else if HasCount(s, 4) {
      var i :| 0 <= i < 5 && Count(s, s[i]) == 4;
      if s[i] != 'J' {
        CountSplit(s, s[i], 'J');
      }
    } else if HasCount(s, 3) {
      var i :| 0 <= i < 5 && Count(s, s[i]) == 3;
      var a := s[i];
      if a != 'J' {
        CountSplit(s, a, 'J');
        assert a in Chars(s);
        PairCounts(s, a, 'J');
        if distinct == 2 && j > 0 {
          assert a in Chars(s);
        }
      }
    } else {
      if j > 0 {
        var i :| 0 <= i < 5 && s[i] == 'J';
        assert Count(s, s[i]) == j;
      }
    }
  }

  // Card values and comparison

  /** The card labels from weakest to strongest under part 1's rules. */
  const Labels: string := "23456789TJQKA"

  /** One of the thirteen labels. */
  predicate ValidCard(c: char) {
    '2' <= c <= '9' || c == 'T' || c == 'J' || c == 'Q' || c == 'K' || c == 'A'
  }

  /** `convertCardToInt`: 2-9 at face value, then T, J, Q, K, A as 10 to 14,
      except that a joker is worth 1. Anything else panics. */
  function CardValue(rules: Rules, c: char): (r: Result<int>)
    ensures r.Ok? <==> ValidCard(c)
  {
    if '2' <= c <= '9' then Ok((c as int) - ('0' as int))
    else if c == 'T' then Ok(10)
    else if c == 'J' then Ok(if rules == Jacks then 11 else 1)
    else if c == 'Q' then Ok(12)
    else if c == 'K' then Ok(13)
    else if c == 'A' then Ok(14)
    else Fatal("Invalid character found: " + [c])
  }

  /** Under part 1's rules each label is worth two more than its position, so
      the values rise strictly along the labels; part 2 moves only the joker,
      below every other card. */
  lemma CardValueOrder(rules: Rules)
    ensures forall i :: 0 <= i < |Labels| ==> CardValue(Jacks, Labels[i]) == Ok(i + 2)
    ensures forall i :: 0 <= i < |Labels| && Labels[i] != 'J' ==>
      CardValue(Jokers, Labels[i]) == CardValue(Jacks, Labels[i])
    ensures forall i :: 0 <= i < |Labels| && Labels[i] != 'J' ==>
      CardValue(Jokers, 'J').value < CardValue(Jokers, Labels[i]).value
  {
  }

  /** Different valid cards have different values under both rules. */
  lemma CardValueInjective(rules: Rules, a: char, b: char)
    requires ValidCard(a) && ValidCard(b) && a != b
    ensures CardValue(rules, a).value != CardValue(rules, b).value
  {
  }

  /** The value a card sorts by: its `convertCardToInt` value, and for a card
      outside the labels a negative stand-in, different for each character.
      The program never computes a stand-in: reading such a card panics. */
  function SortValue(rules: Rules, c: char): int {
    match CardValue(rules, c)
    case Ok(v) => v
    case Fatal(_) => -1 - (c as int)
  }

  lemma SortValueInjective(rules: Rules, a: char, b: char)
    requires a != b
    ensures SortValue(rules, a) != SortValue(rules, b)
  {
    if ValidCard(a) && ValidCard(b) {
      CardValueInjective(rules, a, b);
    }
  }

  datatype Hand = Hand(raw: string, kind: HandType, bid: int)

  /** The card loop of `compareHands` from index `i` on: the first differing
      card decides; running out of cards means the hands are identical, which
      panics. */
  function CompareCards(rules: Rules, a: string, b: string, i: nat): (r: Result<bool>)
    decreases |a| - i
  {
    if i >= |a| then Fatal("Two identical hands were found.")
    else
      var v1 :- CardValue(rules, a[i]);
      if i >= |b| then Fatal("index out of range")
      else
        var v2 :- CardValue(rules, b[i]);
        if v1 != v2 then Ok(v1 < v2) else CompareCards(rules, a, b, i + 1)
  }

  /** `compareHands`: whether the first hand loses to the second. */
  function CompareHands(rules: Rules, h1: Hand, h2: Hand): Result<bool> {
    if h1.kind != h2.kind then Ok(Rank(h1.kind) < Rank(h2.kind))
    else CompareCards(rules, h1.raw, h2.raw, 0)
  }

  /** Five cards, as every parsed hand has. */
  predicate FiveCards(h: Hand) {
    |h.raw| == 5
  }

  predicate ValidHand(h: Hand) {
    |h.raw| == 5 && forall i :: 0 <= i < 5 ==> ValidCard(h.raw[i])
  }

  /** The sort values of the cards; on valid cards, their values. */
  function Values(rules: Rules, s: string): (v: seq<int>)
    ensures |v| == |s|
    ensures forall i :: 0 <= i < |s| ==> v[i] == SortValue(rules, s[i])
    ensures forall i :: 0 <= i < |s| && ValidCard(s[i]) ==> v[i] == CardValue(rules, s[i]).value
  {
    seq(|s|, i requires 0 <= i < |s| => SortValue(rules, s[i]))
  }

  /** The sort key: the type's rank, then the card values in order. */
  function Key(rules: Rules, h: Hand): (k: seq<int>)
    requires FiveCards(h)
    ensures |k| == 6
  {
    [Rank(h.kind)] + Values(rules, h.raw)
  }

  /** Lexicographic "less than" from index `i` on. */
  predicate LexLess(x: seq<int>, y: seq<int>, i: nat)
    requires |x| == |y|
    decreases |x| - i
  {
    i < |x| && (x[i] < y[i] || (x[i] == y[i] && LexLess(x, y, i + 1)))
  }

  /** The card loop, when it answers, orders the cards lexicographically by
      value; it panics on equal remainders, and on valid cards only then. */
  lemma {:induction false} CompareCardsIsLex(rules: Rules, a: string, b: string, i: nat)
    requires |a| == |b| && i <= |a|
    ensures CompareCards(rules, a, b, i).Ok? ==>
      CompareCards(rules, a, b, i).value == LexLess(Values(rules, a), Values(rules, b), i)
    ensures a[i..] == b[i..] ==> CompareCards(rules, a, b, i).Fatal?
    ensures (forall k :: i <= k < |a| ==> ValidCard(a[k]) && ValidCard(b[k])) ==>
      (CompareCards(rules, a, b, i).Fatal? <==> a[i..] == b[i..])
    decreases |a| - i
  {
    if i < |a| {
      CompareCardsIsLex(rules, a, b, i + 1);
      assert a[i..] == [a[i]] + a[i + 1..] && b[i..] == [b[i]] + b[i + 1..];
      if a[i] != b[i] {
        SortValueInjective(rules, a[i], b[i]);
      }
    }
  }

  /** The card loop panics for a pair exactly when it panics for the pair swapped. */
  lemma {:induction false} CompareCardsSymmetric(rules: Rules, a: string, b: string, i: nat)
    requires |a| == |b| && i <= |a|
    ensures CompareCards(rules, a, b, i).Fatal? <==> CompareCards(rules, b, a, i).Fatal?
    decreases |a| - i
  {
    if i < |a| {
      CompareCardsSymmetric(rules, a, b, i + 1);
    }
  }

  /** On any five-card hands: an answer is the lexicographic order of the
      keys, equal keys panic, and a pair panics exactly when the pair swapped
      does, so the order in which a sort meets two hands does not matter. */
  lemma CompareHandsByKey(rules: Rules, h1: Hand, h2: Hand)
    requires FiveCards(h1) && FiveCards(h2)
    ensures CompareHands(rules, h1, h2).Ok? ==>
      CompareHands(rules, h1, h2).value == LexLess(Key(rules, h1), Key(rules, h2), 0)
    ensures Key(rules, h1) == Key(rules, h2) ==> CompareHands(rules, h1, h2).Fatal?
    ensures CompareHands(rules, h1, h2).Fatal? <==> CompareHands(rules, h2, h1).Fatal?
  {
    var k1, k2 := Key(rules, h1), Key(rules, h2);
    if h1.kind == h2.kind {
      KeysAgreeOnKind(rules, h1, h2);
      CompareCardsIsLex(rules, h1.raw, h2.raw, 0);
      CompareCardsSymmetric(rules, h1.raw, h2.raw, 0);
      assert h1.raw[0..] == h1.raw && h2.raw[0..] == h2.raw;
      if k1 == k2 {
        KeyInjective(rules, h1, h2);
      }
    } else {
      assert k1[0] == Rank(h1.kind) && k2[0] == Rank(h2.kind);
    }
  }

  /** On valid hands the comparison panics exactly on identical hands, and is
      otherwise the lexicographic order of the keys. */
  lemma CompareHandsIsLex(rules: Rules, h1: Hand, h2: Hand)
    requires ValidHand(h1) && ValidHand(h2)
    ensures CompareHands(rules, h1, h2).Fatal? <==> h1.kind == h2.kind && h1.raw == h2.raw
    ensures CompareHands(rules, h1, h2).Ok? ==>
      CompareHands(rules, h1, h2).value == LexLess(Key(rules, h1), Key(rules, h2), 0)
  {
    if h1.kind == h2.kind {
      CompareSameKind(rules, h1, h2);
    } else {
      var k1, k2 := Key(rules, h1), Key(rules, h2);
      assert k1[0] == Rank(h1.kind) && k2[0] == Rank(h2.kind);
    }
  }

  lemma CompareSameKind(rules: Rules, h1: Hand, h2: Hand)
    requires ValidHand(h1) && ValidHand(h2) && h1.kind == h2.kind
    ensures CompareHands(rules, h1, h2).Fatal? <==> h1.raw == h2.raw
    ensures CompareHands(rules, h1, h2).Ok? ==>
      CompareHands(rules, h1, h2).value == LexLess(Key(rules, h1), Key(rules, h2), 0)
  {
    KeysAgreeOnKind(rules, h1, h2);
    CompareCardsFromStart(rules, h1.raw, h2.raw);
  }

  /** Keys of hands of one type compare as their card values do. */
  lemma KeysAgreeOnKind(rules: Rules, h1: Hand, h2: Hand)
    requires FiveCards(h1) && FiveCards(h2) && h1.kind == h2.kind
    ensures LexLess(Key(rules, h1), Key(rules, h2), 0) == LexLess(Values(rules, h1.raw), Values(rules, h2.raw), 0)
  {
    var k1, k2 := Key(rules, h1), Key(rules, h2);
    var v1, v2 := Values(rules, h1.raw), Values(rules, h2.raw);
    assert k1[1..] == v1 && k2[1..] == v2;
    LexShift(v1, v2, k1, k2, 0);
  }

  lemma CompareCardsFromStart(rules: Rules, a: string, b: string)
    requires |a| == |b|
    requires forall k :: 0 <= k < |a| ==> ValidCard(a[k]) && ValidCard(b[k])
    ensures CompareCards(rules, a, b, 0).Fatal? <==> a == b
    ensures CompareCards(rules, a, b, 0).Ok? ==>
      CompareCards(rules, a, b, 0).value == LexLess(Values(rules, a), Values(rules, b), 0)
  {
    CompareCardsIsLex(rules, a, b, 0);
    assert a[0..] == a && b[0..] == b;
  }

  /** Comparing keys that agree on their first entry is comparing the rest. */
  lemma {:induction false} LexShift(x: seq<int>, y: seq<int>, kx: seq<int>, ky: seq<int>, i: nat)
    requires |x| == |y| && |kx| == |x| + 1 && |ky| == |y| + 1 && i <= |x|
    requires kx[0] == ky[0] && kx[1..] == x && ky[1..] == y
    ensures LexLess(kx, ky, i + 1) == LexLess(x, y, i)
    decreases |x| - i
  {
    if i < |x| {
      assert kx[i + 1] == x[i] && ky[i + 1] == y[i];
      LexShift(x, y, kx, ky, i + 1);
    }
  }

  lemma {:induction false} LexAsymmetric(x: seq<int>, y: seq<int>, i: nat)
    requires |x| == |y|
    ensures !(LexLess(x, y, i) && LexLess(y, x, i))
    decreases |x| - i
  {
    if i < |x| && x[i] == y[i] {
      LexAsymmetric(x, y, i + 1);
    }
  }

  lemma {:induction false} LexTotal(x: seq<int>, y: seq<int>, i: nat)
    requires |x| == |y| && i <= |x| && x[i..] != y[i..]
    ensures LexLess(x, y, i) || LexLess(y, x, i)
    decreases |x| - i
  {
    assert x[i..] == [x[i]] + x[i + 1..] && y[i..] == [y[i]] + y[i + 1..];
    if x[i] == y[i] {
      LexTotal(x, y, i + 1);
    }
  }

  lemma {:induction false} LexTransitive(x: seq<int>, y: seq<int>, z: seq<int>, i: nat)
    requires |x| == |y| == |z| && LexLess(x, y, i) && LexLess(y, z, i)
    ensures LexLess(x, z, i)
    decreases |x| - i
  {
    if x[i] == y[i] && y[i] == z[i] {
      LexTransitive(x, y, z, i + 1);
    }
  }

  /** Five-card hands are different exactly when their keys are. */
  lemma KeyInjective(rules: Rules, h1: Hand, h2: Hand)
    requires FiveCards(h1) && FiveCards(h2)
    ensures Key(rules, h1) == Key(rules, h2) <==> h1.kind == h2.kind && h1.raw == h2.raw
  {
    var k1, k2 := Key(rules, h1), Key(rules, h2);
    if k1 == k2 {
      assert Rank(h1.kind) == k1[0] == k2[0] == Rank(h2.kind);
      forall i | 0 <= i < 5 ensures h1.raw[i] == h2.raw[i] {
        assert k1[i + 1] == k2[i + 1];
        if h1.raw[i] != h2.raw[i] {
          SortValueInjective(rules, h1.raw[i], h2.raw[i]);
        }
      }
    }
  }

  /** "Loses to" is a strict total order on valid hands told apart by type or
      cards: irreflexive (comparing a hand with itself panics), asymmetric,
      total and transitive. */
  lemma CompareHandsStrictTotalOrder(rules: Rules, h1: Hand, h2: Hand, h3: Hand)
    requires ValidHand(h1) && ValidHand(h2) && ValidHand(h3)
    ensures CompareHands(rules, h1, h1).Fatal?
    ensures !(CompareHands(rules, h1, h2) == Ok(true) && CompareHands(rules, h2, h1) == Ok(true))
    ensures (h1.kind, h1.raw) != (h2.kind, h2.raw) ==>
      CompareHands(rules, h1, h2) == Ok(true) || CompareHands(rules, h2, h1) == Ok(true)
    ensures CompareHands(rules, h1, h2) == Ok(true) && CompareHands(rules, h2, h3) == Ok(true) ==>
      CompareHands(rules, h1, h3) == Ok(true)
  {
    var k1, k2, k3 := Key(rules, h1), Key(rules, h2), Key(rules, h3);
    CompareHandsIsLex(rules, h1, h1);
    CompareHandsIsLex(rules, h1, h2);
    CompareHandsIsLex(rules, h2, h1);
    CompareHandsIsLex(rules, h2, h3);
    CompareHandsIsLex(rules, h1, h3);
    LexAsymmetric(k1, k2, 0);
    if (h1.kind, h1.raw) != (h2.kind, h2.raw) {
      KeyInjective(rules, h1, h2);
      assert k1[0..] == k1 && k2[0..] == k2;
      LexTotal(k1, k2, 0);
    }
    if LexLess(k1, k2, 0) && LexLess(k2, k3, 0) {
      LexTransitive(k1, k2, k3, 0);
      LexAsymmetric(k1, k3, 0);
    }
  }

  // Sorting and winnings

  predicate SortedByKey(rules: Rules, hands: seq<Hand>)
    requires forall k :: 0 <= k < |hands| ==> FiveCards(hands[k])
  {
    forall i, j :: 0 <= i < j < |hands| ==> LexLess(Key(rules, hands[i]), Key(rules, hands[j]), 0)
  }

  /** Inserts a hand in front of the first hand it loses to. */
  function InsertHand(rules: Rules, h: Hand, hands: seq<Hand>): (r: seq<Hand>)
    requires FiveCards(h) && forall k :: 0 <= k < |hands| ==> FiveCards(hands[k])
    ensures forall k :: 0 <= k < |r| ==> FiveCards(r[k])
    ensures multiset(r) == multiset(hands) + multiset{h}
    decreases |hands|
  {
    if |hands| == 0 then [h]
    else if LexLess(Key(rules, h), Key(rules, hands[0]), 0) then [h] + hands
    else
      assert hands == [hands[0]] + hands[1..];
      [hands[0]] + InsertHand(rules, h, hands[1..])
  }

  /** A hand below every hand of a sorted list can go in front. */
  lemma PrependSorted(rules: Rules, x: Hand, xs: seq<Hand>)
    requires FiveCards(x) && forall k :: 0 <= k < |xs| ==> FiveCards(xs[k])
    requires SortedByKey(rules, xs)
    requires forall k :: 0 <= k < |xs| ==> LexLess(Key(rules, x), Key(rules, xs[k]), 0)
    ensures SortedByKey(rules, [x] + xs)
  {
    var r := [x] + xs;
    forall i, j | 0 <= i < j < |r| ensures LexLess(Key(rules, r[i]), Key(rules, r[j]), 0) {
      assert r[j] == xs[j - 1];
      if i > 0 {
        assert r[i] == xs[i - 1];
      }
    }
  }

  /** Inserting a hand whose key is new into sorted hands keeps them sorted. */
  lemma {:induction false} InsertHandSorted(rules: Rules, h: Hand, hands: seq<Hand>)
    requires FiveCards(h) && forall k :: 0 <= k < |hands| ==> FiveCards(hands[k])
    requires SortedByKey(rules, hands)
    requires forall k :: 0 <= k < |hands| ==> Key(rules, hands[k]) != Key(rules, h)
    ensures SortedByKey(rules, InsertHand(rules, h, hands))
    decreases |hands|
  {
    if |hands| > 0 {
      var kh, k0 := Key(rules, h), Key(rules, hands[0]);
      if LexLess(kh, k0, 0) {
        forall j | 0 <= j < |hands| ensures LexLess(kh, Key(rules, hands[j]), 0) {
          if j > 0 {
            LexTransitive(kh, k0, Key(rules, hands[j]), 0);
          }
        }
        PrependSorted(rules, h, hands);
      } else {
        assert kh[0..] == kh && k0[0..] == k0;
        LexTotal(kh, k0, 0);
        InsertAfterFirst(rules, h, hands);
      }
    }
  }

  lemma {:induction false} InsertAfterFirst(rules: Rules, h: Hand, hands: seq<Hand>)
    requires FiveCards(h) && forall k :: 0 <= k < |hands| ==> FiveCards(hands[k])
    requires SortedByKey(rules, hands)
    requires forall k :: 0 <= k < |hands| ==> Key(rules, hands[k]) != Key(rules, h)
    requires |hands| > 0 && LexLess(Key(rules, hands[0]), Key(rules, h), 0)
    ensures SortedByKey(rules, InsertHand(rules, h, hands))
    decreases |hands|, 0
  {
    var kh, k0 := Key(rules, h), Key(rules, hands[0]);
    LexAsymmetric(kh, k0, 0);
    var tail := hands[1..];
    assert SortedByKey(rules, tail) by {
      forall i, j | 0 <= i < j < |tail| ensures LexLess(Key(rules, tail[i]), Key(rules, tail[j]), 0) {
        assert tail[i] == hands[i + 1] && tail[j] == hands[j + 1];
      }
    }
    InsertHandSorted(rules, h, tail);
    var rest := InsertHand(rules, h, tail);
    assert forall m :: 0 <= m < |tail| ==> tail[m] == hands[m + 1];
    InsertedAbove(rules, k0, h, tail);
    PrependSorted(rules, hands[0], rest);
  }

  /** Inserting a hand above `lo` into hands all above `lo` keeps them all above it. */
  lemma InsertedAbove(rules: Rules, lo: seq<int>, h: Hand, tail: seq<Hand>)
    requires FiveCards(h) && forall k :: 0 <= k < |tail| ==> FiveCards(tail[k])
    requires |lo| == 6 && LexLess(lo, Key(rules, h), 0)
    requires forall m :: 0 <= m < |tail| ==> LexLess(lo, Key(rules, tail[m]), 0)
    ensures forall k :: 0 <= k < |InsertHand(rules, h, tail)| ==> LexLess(lo, Key(rules, InsertHand(rules, h, tail)[k]), 0)
  {
    var rest := InsertHand(rules, h, tail);
    forall k | 0 <= k < |rest| ensures LexLess(lo, Key(rules, rest[k]), 0) {
      assert rest[k] in multiset(rest);
      if rest[k] != h {
        assert rest[k] in multiset(tail);
        var m :| 0 <= m < |tail| && tail[m] == rest[k];
      }
    }
  }

  /** `sort.Slice` with `compareHands`: insertion sort by the key. */
  function SortHands(rules: Rules, hands: seq<Hand>): (r: seq<Hand>)
    requires forall k :: 0 <= k < |hands| ==> FiveCards(hands[k])
    ensures forall k :: 0 <= k < |r| ==> FiveCards(r[k])
    ensures multiset(r) == multiset(hands)
    decreases |hands|
  {
    if |hands| == 0 then []
    else
      assert hands == [hands[0]] + hands[1..];
      InsertHand(rules, hands[0], SortHands(rules, hands[1..]))
  }

  /** Hands with pairwise different keys come out of the sort from weakest to
      strongest: a sorted permutation of the input. */
  lemma {:induction false} SortHandsSorted(rules: Rules, hands: seq<Hand>)
    requires forall k :: 0 <= k < |hands| ==> FiveCards(hands[k])
    requires DistinctKeys(rules, hands)
    ensures SortedByKey(rules, SortHands(rules, hands))
    decreases |hands|
  {
    if |hands| > 0 {
      var tail := hands[1..];
      SortHandsSorted(rules, tail);
      var rest := SortHands(rules, tail);
      forall k | 0 <= k < |rest| ensures Key(rules, rest[k]) != Key(rules, hands[0]) {
        assert rest[k] in multiset(rest);
        assert rest[k] in multiset(tail);
        var m :| 0 <= m < |tail| && tail[m] == rest[k];
        assert tail[m] == hands[m + 1];
      }
      InsertHandSorted(rules, hands[0], rest);
    }
  }

  /** The winnings fold: each hand's bid times its 1-based rank. */
  function Winnings(hands: seq<Hand>): int
    decreases |hands|
  {
    if |hands| == 0 then 0 else Winnings(hands[..|hands| - 1]) + |hands| * hands[|hands| - 1].bid
  }

  /** The type of a hand under the rules: part 1's `getHandType` or part 2's
      joker-aware one. */
  function TypeOf(rules: Rules, cards: string): Result<HandType> {
    if rules == Jacks then Classify(cards) else ClassifyWithJokers(cards)
  }

  /** Each line "cards bid" read into a hand; a line with fewer than two fields
      is an index out of range, an unparsable bid reads as 0. */
  function ParseHand(rules: Rules, line: string): (r: Result<Hand>)
    ensures r.Ok? <==> (|Fields(line)| >= 2 && TypeOf(rules, Fields(line)[0]).Ok?)
    ensures r.Ok? ==> Ok(r.value.kind) == TypeOf(rules, Fields(line)[0])
    ensures r.Ok? ==> |Fields(line)| >= 2 && r.value.raw == Fields(line)[0]
    ensures r.Ok? ==> r.value.bid == ParseIntIgnoringError(Fields(line)[1])
    ensures r.Ok? ==> |r.value.raw| == 5
  {
    var values := Fields(line);
    if |values| == 0 then Fatal("index out of range [0] with length 0")
    else
      var kind :- TypeOf(rules, values[0]);
      if |values| < 2 then Fatal("index out of range [1] with length 1")
      else Ok(Hand(values[0], kind, ParseIntIgnoringError(values[1])))
  }

  function ParseHands(rules: Rules, lines: seq<string>): (r: Result<seq<Hand>>)
    ensures r.Ok? <==> forall k :: 0 <= k < |lines| ==> ParseHand(rules, lines[k]).Ok?
    ensures r.Ok? ==> |r.value| == |lines|
    ensures r.Ok? ==> forall k :: 0 <= k < |lines| ==> ParseHand(rules, lines[k]) == Ok(r.value[k])
  {
    ParseEach(lines, line => ParseHand(rules, line))
  }

  predicate DistinctKeys(rules: Rules, hands: seq<Hand>)
    requires forall k :: 0 <= k < |hands| ==> FiveCards(hands[k])
  {
    forall i, j :: 0 <= i < j < |hands| ==> Key(rules, hands[i]) != Key(rules, hands[j])
  }

  /** Whether `compareHands` answers on every pair of the hands; by
      `CompareHandsByKey` the order within a pair does not matter. */
  predicate Comparable(rules: Rules, hands: seq<Hand>) {
    forall i, j :: 0 <= i < j < |hands| ==> CompareHands(rules, hands[i], hands[j]).Ok?
  }

  /** One hand compared with each of the others in turn; the first panic stops. */
  function CompareWithEach(rules: Rules, h: Hand, others: seq<Hand>): (r: Result<()>)
    ensures r.Ok? <==> forall k :: 0 <= k < |others| ==> CompareHands(rules, h, others[k]).Ok?
    decreases |others|
  {
    if |others| == 0 then Ok(())
    else
      var _ :- CompareHands(rules, h, others[0]);
      assert forall k :: 1 <= k < |others| ==> others[1..][k - 1] == others[k];
      CompareWithEach(rules, h, others[1..])
  }

  /** Every pair of hands compared, in index order; the first panic stops. */
  function ComparePairs(rules: Rules, hands: seq<Hand>): (r: Result<()>)
    ensures r.Ok? <==> Comparable(rules, hands)
    decreases |hands|
  {
    if |hands| == 0 then Ok(())
    else
      var _ :- CompareWithEach(rules, hands[0], hands[1..]);
      var rest := ComparePairs(rules, hands[1..]);
      assert forall k :: 1 <= k < |hands| ==> hands[1..][k - 1] == hands[k];
      assert rest.Fatal? ==> !Comparable(rules, hands) by {
        if rest.Fatal? {
          var i, j :| 0 <= i < j < |hands[1..]| && CompareHands(rules, hands[1..][i], hands[1..][j]).Fatal?;
          assert hands[1..][i] == hands[i + 1] && hands[1..][j] == hands[j + 1];
        }
      }
      rest
  }

  /** Sorting comparable hands puts every hand below each hand after it, as
      `compareHands` judges them. */
  lemma SortedComparable(rules: Rules, hands: seq<Hand>)
    requires forall k :: 0 <= k < |hands| ==> FiveCards(hands[k])
    requires Comparable(rules, hands)
    ensures forall i, j :: 0 <= i < j < |SortHands(rules, hands)| ==>
      CompareHands(rules, SortHands(rules, hands)[i], SortHands(rules, hands)[j]) == Ok(true)
  {
    assert DistinctKeys(rules, hands) by {
      forall i, j | 0 <= i < j < |hands| ensures Key(rules, hands[i]) != Key(rules, hands[j]) {
        CompareHandsByKey(rules, hands[i], hands[j]);
      }
    }
    SortHandsSorted(rules, hands);
    var sorted := SortHands(rules, hands);
    forall i, j | 0 <= i < j < |sorted| ensures CompareHands(rules, sorted[i], sorted[j]) == Ok(true) {
      var ki, kj := Key(rules, sorted[i]), Key(rules, sorted[j]);
      assert LexLess(ki, kj, 0);
      LexAsymmetric(ki, kj, 0);
      assert sorted[i] in multiset(hands) && sorted[j] in multiset(hands);
      var p :| 0 <= p < |hands| && hands[p] == sorted[i];
      var q :| 0 <= q < |hands| && hands[q] == sorted[j];
      CompareHandsByKey(rules, sorted[i], sorted[j]);
      if p > q {
        CompareHandsByKey(rules, sorted[j], sorted[i]);
      }
    }
  }

  /** The answer of both parts: the winnings of the hands sorted weakest
      first. The sort panics when `compareHands` panics on some pair of hands
      it meets: two identical hands, or a comparison that reaches a card
      outside the labels. */
  function TotalWinnings(rules: Rules, lines: seq<string>): (r: Result<int>)
    ensures r.Ok? <==> ParseHands(rules, lines).Ok? && Comparable(rules, ParseHands(rules, lines).value)
    ensures r.Ok? ==>
      var hands := ParseHands(rules, lines).value;
      var sorted := SortHands(rules, hands);
      multiset(sorted) == multiset(hands) && r.value == Winnings(sorted) &&
      forall i, j :: 0 <= i < j < |sorted| ==> CompareHands(rules, sorted[i], sorted[j]) == Ok(true)
  {
    var hands :- ParseHands(rules, lines);
    assert forall k :: 0 <= k < |hands| ==> FiveCards(hands[k]) by {
      forall k | 0 <= k < |hands| ensures FiveCards(hands[k]) {
        assert ParseHand(rules, lines[k]) == Ok(hands[k]);
      }
    }
    var _ :- ComparePairs(rules, hands);
    SortedComparable(rules, hands);
    Ok(Winnings(SortHands(rules, hands)))
  }

  /** The puzzle's example hands: "32T3K" is one pair and "T55J5" three of a
      kind, which jokers make four of a kind. */
  lemma ExampleOnePair()
    ensures Classify("32T3K") == Ok(OnePair)
  {
    OnePairHand("32T3K");
  }

  lemma OnePairHand(a: string)
    requires a == "32T3K"
    ensures Classify(a) == Ok(OnePair)
  {
    assert a[0] == '3' && a[1] == '2' && a[2] == 'T' && a[3] == '3' && a[4] == 'K';
    assert a[0] in Chars(a) && a[1] in Chars(a) && a[2] in Chars(a) && a[4] in Chars(a);
    assert Chars(a) == {'3', '2', 'T', 'K'};
    CountFive(a, '3');
    CountFive(a, '2');
    CountFive(a, 'T');
    CountFive(a, 'K');
    assert !HasCount(a, 4) && !HasCount(a, 3);
  }

  lemma ExampleThreeWithJoker()
    ensures Classify("T55J5") == Ok(ThreeOfAKind)
    ensures ClassifyWithJokers("T55J5") == Ok(FourOfAKind)
  {
    ThreeWithJokerHand("T55J5");
  }

  lemma ThreeWithJokerHand(c: string)
    requires c == "T55J5"
    ensures Classify(c) == Ok(ThreeOfAKind)
    ensures ClassifyWithJokers(c) == Ok(FourOfAKind)
  {
    assert c[0] == 'T' && c[1] == '5' && c[2] == '5' && c[3] == 'J' && c[4] == '5';
    assert c[0] in Chars(c) && c[1] in Chars(c) && c[3] in Chars(c);
    assert Chars(c) == {'T', '5', 'J'};
    CountFive(c, '5');
    CountFive(c, 'T');
    CountFive(c, 'J');
    assert !HasCount(c, 4) && HasCount(c, 3);
  }

  /** The count of a card in a five-card hand, position by position. */
  lemma CountFive(s: string, c: char)
    requires |s| == 5
    ensures Count(s, c) == (if s[0] == c then 1 else 0) + (if s[1] == c then 1 else 0) + (if s[2] == c then 1 else 0)
      + (if s[3] == c then 1 else 0) + (if s[4] == c then 1 else 0)
  {
    forall k | 0 <= k < 5
      ensures Count(s[..k + 1], c) == Count(s[..k], c) + if s[k] == c then 1 else 0
    {
      assert s[..k + 1][..k] == s[..k];
    }
    assert s[..5] == s;
  }
}
