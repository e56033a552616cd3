/** Day 1: the calibration value of a line is the first and the last digit it
    mentions, read as a two-digit number (01/part1.go, 01/part2.go). */
module Day01 {
  import opened Outcome
  import opened Text

  /** Part 1 reads only the characters '0'..'9'; part 2 also reads the spelled
      digits "one" .. "nine". */
  datatype Rules = DigitsOnly | DigitsAndWords

  type Digit = d: nat | d <= 9

  /** The spelled digits, in the order the part 2 program tries them. */
  const Words: seq<string> := ["one", "two", "three", "four", "five", "six", "seven", "eight", "nine"]

  /** `hasSubstringAtIndex`: whether `number` is written in `line` starting at
      index `i`, compared character by character. */
  method HasSubstringAtIndex(line: string, i: nat, number: string) returns (found: bool)
    requires i <= |line|
    ensures found <==> OccursAt(line, number, i)
  {
    if |line| - i < |number| {
      return false;
    }
    var k := i;
    var j := 0;
    while j < |number|
      invariant 0 <= j <= |number| && k == i + j
      invariant line[i..k] == number[..j]
    {
      if line[k] != number[j] {
        assert line[i..i + |number|][j] != number[j];
        return false;
      }
      assert line[i..k + 1] == line[i..k] + [line[k]];
      assert number[..j + 1] == number[..j] + [number[j]];
      k := k + 1;
      j := j + 1;
    }
    assert number[..j] == number;
    return true;
  }

  /** Digit `w` is spelled out in `line` starting at index `i`. */
  predicate SpelledAt(line: string, w: nat, i: nat)
    requires 1 <= w <= 9
  {
    OccursAt(line, Words[w - 1], i)
  }

  /** The first spelled digit, trying `from` .. 9 in turn, written at index `i`. */
  function SpelledDigitAt(line: string, i: nat, from: nat): (d: Option<Digit>)
    requires 1 <= from <= 10
    ensures d.Some? ==> from <= d.value <= 9 && SpelledAt(line, d.value, i)
    ensures d.None? <==> forall w :: from <= w <= 9 ==> !SpelledAt(line, w, i)
    ensures d.Some? ==> forall w :: from <= w < d.value ==> !SpelledAt(line, w, i)
    decreases 10 - from
  {
    if from == 10 then None
    else if SpelledAt(line, from, i) then Some(from)
    else SpelledDigitAt(line, i, from + 1)
  }

  /** The digit a line mentions at index `i`, if any. */
  function ValueAt(rules: Rules, line: string, i: nat): (d: Option<Digit>)
    requires i < |line|
    ensures IsDigit(line[i]) ==> d == Some(DigitValue(line[i]))
    ensures rules == DigitsOnly && !IsDigit(line[i]) ==> d == None
  {
    if IsDigit(line[i]) then Some(DigitValue(line[i]))
    else if rules == DigitsOnly then None
    else SpelledDigitAt(line, i, 1)
  }

  /** The values `at` gives at the indices below `n`, in order of index. */
  function Collect<T>(at: nat -> Option<T>, n: nat): seq<T>
    decreases n
  {
    if n == 0 then []
    else
      match at(n - 1)
      case Some(d) => Collect(at, n - 1) + [d]
      case None => Collect(at, n - 1)
  }

  /** Nothing is collected exactly when no index below `n` gives a value. */
  lemma {:induction false} CollectEmpty<T>(at: nat -> Option<T>, n: nat)
    ensures |Collect(at, n)| == 0 <==> forall k :: 0 <= k < n ==> at(k).None?
    decreases n
  {
    if n > 0 {
      CollectEmpty(at, n - 1);
    }
  }

  /** The first value collected is the one at the first index that gives one. */
  lemma {:induction false} CollectFirst<T>(at: nat -> Option<T>, n: nat, i: nat)
    requires i < n && at(i).Some? && forall k :: 0 <= k < i ==> at(k).None?
    ensures |Collect(at, n)| > 0 && Collect(at, n)[0] == at(i).value
    decreases n
  {
    if n - 1 == i {
      CollectEmpty(at, n - 1);
    } else {
      CollectFirst(at, n - 1, i);
    }
  }

  /** The last value collected is the one at the last index below `n` that gives one. */
  lemma {:induction false} CollectLast<T>(at: nat -> Option<T>, n: nat, j: nat)
    requires j < n && at(j).Some? && forall k :: j < k < n ==> at(k).None?
    ensures |Collect(at, n)| > 0 && Collect(at, n)[|Collect(at, n)| - 1] == at(j).value
    decreases n
  {
    if n - 1 > j {
      CollectLast(at, n - 1, j);
    }
  }

  /** The digit the line mentions at each index; nothing past its end. */
  function MentionAt(rules: Rules, line: string): nat -> Option<Digit> {
    (k: nat) => if k < |line| then ValueAt(rules, line, k) else None
  }

  /** The digits mentioned at the indices below `n`, in order. */
  function Mentioned(rules: Rules, line: string, n: nat): seq<Digit>
    requires n <= |line|
  {
    Collect(MentionAt(rules, line), n)
  }

  /** The first and the last element as a two-digit number; zero when empty. */
  function Combine(numbers: seq<nat>): nat {
    if |numbers| == 0 then 0
    else if |numbers| == 1 then numbers[0] * 10 + numbers[0]
    else numbers[0] * 10 + numbers[|numbers| - 1]
  }

  /** Combining reads the first element as tens and the last as units. */
  lemma CombineEnds(ds: seq<nat>)
    requires |ds| > 0
    ensures Combine(ds) == 10 * ds[0] + ds[|ds| - 1]
  {
  }

  predicate Mentions(rules: Rules, line: string, i: int) {
    0 <= i < |line| && ValueAt(rules, line, i).Some?
  }

  /** `i` is the first index of the line that mentions a digit. */
  predicate IsFirstMention(rules: Rules, line: string, i: int) {
    Mentions(rules, line, i) && forall k :: 0 <= k < i ==> !Mentions(rules, line, k)
  }

  /** `j` is the last index of the line that mentions a digit. */
  predicate IsLastMention(rules: Rules, line: string, j: int) {
    Mentions(rules, line, j) && forall k :: j < k < |line| ==> !Mentions(rules, line, k)
  }

  /** One more index adds the digit it mentions, if any. */
  lemma MentionedNext(rules: Rules, line: string, i: nat)
    requires i < |line|
    ensures ValueAt(rules, line, i).Some? ==> Mentioned(rules, line, i + 1) == Mentioned(rules, line, i) + [ValueAt(rules, line, i).value]
    ensures ValueAt(rules, line, i).None? ==> Mentioned(rules, line, i + 1) == Mentioned(rules, line, i)
  {
    assert MentionAt(rules, line)(i) == ValueAt(rules, line, i);
  }

  /** No digit is collected exactly when no index below `n` mentions one. */
  lemma MentionedEmpty(rules: Rules, line: string, n: nat)
    requires n <= |line|
    ensures |Mentioned(rules, line, n)| == 0 <==> forall k :: 0 <= k < n ==> !Mentions(rules, line, k)
  {
    CollectEmpty(MentionAt(rules, line), n);
    assert forall k :: 0 <= k < n ==> (Mentions(rules, line, k) <==> MentionAt(rules, line)(k).Some?);
  }

  /** The first digit collected comes from the first index that mentions one. */
  lemma MentionedFirst(rules: Rules, line: string, n: nat, i: nat)
    requires i < n <= |line| && IsFirstMention(rules, line, i)
    ensures |Mentioned(rules, line, n)| > 0
    ensures Mentioned(rules, line, n)[0] == ValueAt(rules, line, i).value
  {
    var at := MentionAt(rules, line);
    assert forall k :: 0 <= k < i ==> at(k).None? by {
      forall k | 0 <= k < i ensures at(k).None? {
        assert !Mentions(rules, line, k);
      }
    }
    CollectFirst(at, n, i);
  }

  /** The last digit collected comes from the last index below `n` that mentions one. */
  lemma MentionedLast(rules: Rules, line: string, n: nat, j: nat)
    requires j < n <= |line| && Mentions(rules, line, j)
    requires forall k :: j < k < n ==> !Mentions(rules, line, k)
    ensures |Mentioned(rules, line, n)| > 0
    ensures Mentioned(rules, line, n)[|Mentioned(rules, line, n)| - 1] == ValueAt(rules, line, j).value
  {
    var at := MentionAt(rules, line);
    assert forall k :: j < k < n ==> at(k).None? by {
      forall k | j < k < n ensures at(k).None? {
        assert !Mentions(rules, line, k);
      }
    }
    assert at(j) == ValueAt(rules, line, j);
    CollectLast(at, n, j);
    assert Mentioned(rules, line, n) == Collect(at, n);
  }

  /** The calibration value of a line: the digits it mentions, combined. */
  function CalibrationValue(rules: Rules, line: string): (v: nat)
    ensures v <= 99
  {
    Combine(Mentioned(rules, line, |line|))
  }

  /** The calibration value is ten times the digit at the first mentioning
      index plus the digit at the last, or zero when the line mentions none. */
  lemma CalibrationFromMentions(rules: Rules, line: string)
    ensures (forall k :: 0 <= k < |line| ==> !Mentions(rules, line, k)) ==> CalibrationValue(rules, line) == 0
    ensures forall i, j :: IsFirstMention(rules, line, i) && IsLastMention(rules, line, j) ==>
      CalibrationValue(rules, line) == 10 * ValueAt(rules, line, i).value + ValueAt(rules, line, j).value
  {
    MentionedEmpty(rules, line, |line|);
    forall i, j | IsFirstMention(rules, line, i) && IsLastMention(rules, line, j)
      ensures CalibrationValue(rules, line) == 10 * ValueAt(rules, line, i).value + ValueAt(rules, line, j).value
    {
      CalibrationFromEnds(rules, line, i, j);
    }
  }

  lemma CalibrationFromEnds(rules: Rules, line: string, i: nat, j: nat)
    requires IsFirstMention(rules, line, i) && IsLastMention(rules, line, j)
    ensures CalibrationValue(rules, line) == 10 * ValueAt(rules, line, i).value + ValueAt(rules, line, j).value
  {
    var ds := Mentioned(rules, line, |line|);
    MentionedFirst(rules, line, |line|, i);
    MentionedLast(rules, line, |line|, j);
    CombineEnds(ds);
  }

  /** `extractCalibratedValue` of part 1: scan the line, collecting each digit. */
  method ExtractCalibratedValue(line: string) returns (value: nat)
    ensures value == CalibrationValue(DigitsOnly, line)
    ensures (forall k :: 0 <= k < |line| ==> !IsDigit(line[k])) ==> value == 0
  {
    var numbers := CollectDigits(DigitsOnly, line);
    MentionedEmpty(DigitsOnly, line, |line|);
    value := Combine(numbers);
  }

  /** `extractCalibratedValue` of part 2: at each index a digit character, or
      else the first spelled digit written there. */
  method ExtractCalibratedValueWithWords(line: string) returns (value: nat)
    ensures value == CalibrationValue(DigitsAndWords, line)
  {
    var numbers := CollectDigits(DigitsAndWords, line);
    value := Combine(numbers);
  }

  /** The scanning loop of both parts: the digits read at each index, in order. */
  method CollectDigits(rules: Rules, line: string) returns (numbers: seq<Digit>)
    ensures numbers == Mentioned(rules, line, |line|)
  {
    numbers := [];
    var i := 0;
    while i < |line|
      invariant 0 <= i <= |line|
      invariant numbers == Mentioned(rules, line, i)
    {
      var d := ReadAt(rules, line, i);
      MentionedNext(rules, line, i);
      if d.Some? {
        numbers := numbers + [d.value];
      }
      i := i + 1;
    }
  }

  /** The body of the scan at index `i`: a digit character; under the part 2
      rule, else the chain of spelled-digit tests. */
  method ReadAt(rules: Rules, line: string, i: nat) returns (d: Option<Digit>)
    requires i < |line|
    ensures d == ValueAt(rules, line, i)
  {
    if IsDigit(line[i]) {
      d := Some(DigitValue(line[i]));
    } else if rules == DigitsOnly {
      d := None;
    } else {
      d := ScanSpelledDigit(line, i);
    }
  }

  /** The chain of `hasSubstringAtIndex` tests for "one" .. "nine" at index `i`. */
  method ScanSpelledDigit(line: string, i: nat) returns (d: Option<Digit>)
    requires i < |line|
    ensures d == SpelledDigitAt(line, i, 1)
  {
    var w := 1;
    while w <= 9
      invariant 1 <= w <= 10
      invariant SpelledDigitAt(line, i, 1) == SpelledDigitAt(line, i, w)
    {
      var found := HasSubstringAtIndex(line, i, Words[w - 1]);
      if found {
        return Some(w);
      }
      w := w + 1;
    }
    return None;
  }

  /** The sum of the calibration values of all lines (`main`). */
  function TotalCalibration(rules: Rules, lines: seq<string>): (total: nat)
    ensures total <= 99 * |lines|
    decreases |lines|
  {
    if |lines| == 0 then 0
    else TotalCalibration(rules, lines[..|lines| - 1]) + CalibrationValue(rules, lines[|lines| - 1])
  }

  /** A spelled digit never hides a digit character, so part 2 reads at least
      every digit part 1 reads. */
  lemma DigitsReadByBothRules(line: string, i: nat)
    requires i < |line| && IsDigit(line[i])
    ensures ValueAt(DigitsOnly, line, i) == ValueAt(DigitsAndWords, line, i)
  {
  }

  /** The digit characters of a text, in order. */
  function DigitsIn(s: string): seq<nat>
    decreases |s|
  {
    if |s| == 0 then []
    else if IsDigit(s[|s| - 1]) then DigitsIn(s[..|s| - 1]) + [DigitValue(s[|s| - 1])]
    else DigitsIn(s[..|s| - 1])
  }

  lemma {:induction false} DigitsInAppend(a: string, b: string)
    ensures DigitsIn(a + b) == DigitsIn(a) + DigitsIn(b)
    decreases |b|
  {
    if |b| == 0 {
      assert a + b == a;
    } else {
      assert (a + b)[..|a + b| - 1] == a + b[..|b| - 1];
      DigitsInAppend(a, b[..|b| - 1]);
    }
  }

  /** Part 1 collects exactly the digit characters of the line. */
  lemma {:induction false} MentionedDigitsOnly(line: string, n: nat)
    requires n <= |line|
    ensures Mentioned(DigitsOnly, line, n) == DigitsIn(line[..n])
    decreases n
  {
    if n > 0 {
      MentionedDigitsOnly(line, n - 1);
      assert line[..n][..n - 1] == line[..n - 1];
    }
  }

  /** Inserting a character that is not a digit does not change the part 1 value. */
  lemma NonDigitIrrelevant(a: string, c: char, b: string)
    requires !IsDigit(c)
    ensures CalibrationValue(DigitsOnly, a + [c] + b) == CalibrationValue(DigitsOnly, a + b)
  {
    var long, short := a + [c] + b, a + b;
    MentionedDigitsOnly(long, |long|);
    MentionedDigitsOnly(short, |short|);
    assert long[..|long|] == (a + [c]) + b;
    assert short[..|short|] == a + b;
    DigitsInAppend(a + [c], b);
    DigitsInAppend(a, [c]);
    DigitsInAppend(a, b);
    assert DigitsIn([c]) == [] by { assert [c][..0] == []; }
  }

  /** A line with exactly one digit `d` has the value 11·d. */
  lemma SingleDigit(rules: Rules, line: string, i: nat)
    requires i < |line| && Mentions(rules, line, i)
    requires forall k :: 0 <= k < |line| && k != i ==> !Mentions(rules, line, k)
    ensures CalibrationValue(rules, line) == 11 * ValueAt(rules, line, i).value
  {
    CalibrationFromMentions(rules, line);
    assert IsFirstMention(rules, line, i) && IsLastMention(rules, line, i);
  }

  lemma FirstLetterDiffers(line: string, w: nat, i: nat)
    requires 1 <= w <= 9 && i < |line|
    ensures line[i] != Words[w - 1][0] ==> !SpelledAt(line, w, i)
  {
    if SpelledAt(line, w, i) {
      assert line[i..i + |Words[w - 1]|][0] == line[i];
    }
  }

  /** Every spelled digit has at least three letters and starts with one of
      "otfsen". */
  lemma SpelledShape(w: nat)
    requires 1 <= w <= 9
    ensures |Words[w - 1]| >= 3 && Words[w - 1][0] in "otfsen"
  {
    if w <= 3 {
      assert w == 1 || w == 2 || w == 3;
    } else if w <= 6 {
      assert w == 4 || w == 5 || w == 6;
    } else {
      assert w == 7 || w == 8 || w == 9;
    }
  }

  /** No spelled digit starts at an index whose letter begins none of them, or
      too close to the end of the line. */
  lemma NoSpelledDigitAt(line: string, i: nat)
    requires i < |line| && (line[i] !in "otfsen" || |line| < i + 3)
    ensures SpelledDigitAt(line, i, 1) == None
  {
    forall w | 1 <= w <= 9 ensures !SpelledAt(line, w, i) {
      SpelledShape(w);
      FirstLetterDiffers(line, w, i);
    }
  }

  /** A line with a single digit yields it twice; one without digits, zero. */
  lemma DigitsOnlyExamples()
    ensures CalibrationValue(DigitsOnly, "treb7uchet") == 77
    ensures CalibrationValue(DigitsOnly, "abc") == 0
  {
    SingleDigitExample("treb7uchet");
    NoDigitExample("abc");
  }

  lemma SingleDigitExample(a: string)
    requires a == "treb7uchet"
    ensures CalibrationValue(DigitsOnly, a) == 77
  {
    assert IsDigit(a[4]) && DigitValue(a[4]) == 7;
    assert forall k :: 0 <= k < |a| && k != 4 ==> !Mentions(DigitsOnly, a, k);
    SingleDigit(DigitsOnly, a, 4);
  }

  lemma NoDigitExample(a: string)
    requires a == "abc"
    ensures CalibrationValue(DigitsOnly, a) == 0
  {
    CalibrationFromMentions(DigitsOnly, a);
    assert forall k :: 0 <= k < |a| ==> !Mentions(DigitsOnly, a, k);
  }

  /** Spelled digits may share letters: "1nineight" mentions 1, 9 and 8. */
  lemma OverlappingWordsExample()
    ensures CalibrationValue(DigitsAndWords, "1nineight") == 18
  {
    var b := "1nineight";
    CalibrationFromMentions(DigitsAndWords, b);
    OneAtZero(b);
    EightAtFour(b);
    NothingAfterFour(b);
  }

  lemma OneAtZero(b: string)
    requires b == "1nineight"
    ensures IsFirstMention(DigitsAndWords, b, 0) && ValueAt(DigitsAndWords, b, 0).value == 1
  {
    assert IsDigit(b[0]) && DigitValue(b[0]) == 1;
  }

  lemma NothingAfterFour(b: string)
    requires b == "1nineight"
    ensures forall k :: 4 < k < |b| ==> !Mentions(DigitsAndWords, b, k)
  {
    forall k | 4 < k < |b| ensures !Mentions(DigitsAndWords, b, k) {
      assert !IsDigit(b[k]);
      NoSpelledDigitAt(b, k);
    }
  }

  /** "eight" is the first spelled digit found at index 4 of "1nineight". */
  lemma EightAtFour(b: string)
    requires b == "1nineight"
    ensures Mentions(DigitsAndWords, b, 4) && ValueAt(DigitsAndWords, b, 4).value == 8
  {
    assert !IsDigit(b[4]);
    assert b[4..9] == Words[7];
    assert SpelledAt(b, 8, 4);
    forall w | 1 <= w <= 7 ensures !SpelledAt(b, w, 4) {
      SpelledShape(w);
      FirstLetterDiffers(b, w, 4);
    }
  }
}
