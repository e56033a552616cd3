/** The pieces of Go's `strings` and `strconv` packages that the puzzle programs
    rely on, stated over `string` (a sequence of `char`).  Every program in the
    repository reads ASCII text, so a byte index and a character index coincide. */
module Text {
  import opened Outcome

  predicate IsDigit(c: char) {
    '0' <= c <= '9'
  }

  function DigitValue(c: char): (d: nat)
    requires IsDigit(c)
    ensures d <= 9
    ensures c == '0' + d as char
  {
    (c as int) - ('0' as int)
  }

  predicate AllDigits(s: string) {
    forall i :: 0 <= i < |s| ==> IsDigit(s[i])
  }

  /** `strings.HasPrefix(s, p)`. */
  predicate IsPrefix(p: string, s: string) {
    |p| <= |s| && s[..|p|] == p
  }

  /** `strings.HasSuffix(s, suffix)`. */
  predicate HasSuffix(s: string, suffix: string) {
    |suffix| <= |s| && s[|s| - |suffix|..] == suffix
  }

  /** `strings.Contains(s, sub)`, scanning from the left. */
  predicate Contains(s: string, sub: string)
    decreases |s|
  {
    IsPrefix(sub, s) || (|s| > 0 && Contains(s[1..], sub))
  }

  /** `sub` occurs in `s` starting at index `i`. */
  predicate OccursAt(s: string, sub: string, i: int) {
    0 <= i <= |s| - |sub| && s[i..i + |sub|] == sub
  }

  lemma {:induction false} ContainsMeansOccurs(s: string, sub: string)
    ensures Contains(s, sub) <==> exists i :: OccursAt(s, sub, i)
    decreases |s|
  {
    if IsPrefix(sub, s) {
      assert OccursAt(s, sub, 0);
    } else if |s| > 0 {
      ContainsMeansOccurs(s[1..], sub);
      if exists i :: OccursAt(s, sub, i) {
        var i :| OccursAt(s, sub, i);
        assert i != 0;
        assert s[1..][i - 1..i - 1 + |sub|] == s[i..i + |sub|];
        assert OccursAt(s[1..], sub, i - 1);
      }
      if Contains(s[1..], sub) {
        var j :| OccursAt(s[1..], sub, j);
        assert s[1..][j..j + |sub|] == s[j + 1..j + 1 + |sub|];
        assert OccursAt(s, sub, j + 1);
      }
    }
  }

  /** `strings.Split(s, sep)` for a non-empty separator: the pieces between the
      leftmost non-overlapping occurrences of `sep`, always at least one piece. */
  function SplitOn(s: string, sep: string): (parts: seq<string>)
    requires |sep| > 0
    ensures |parts| >= 1
    decreases |s|
  {
    if |s| < |sep| then [s]
    else if s[..|sep|] == sep then [""] + SplitOn(s[|sep|..], sep)
    else
      var rest := SplitOn(s[1..], sep);
      [[s[0]] + rest[0]] + rest[1..]
  }

  /** `strings.Join(parts, sep)`. */
  function Join(parts: seq<string>, sep: string): string
    decreases |parts|
  {
    if |parts| == 0 then ""
    else if |parts| == 1 then parts[0]
    else parts[0] + sep + Join(parts[1..], sep)
  }

  lemma JoinConsFirst(c: char, parts: seq<string>, sep: string)
    requires |parts| >= 1
    ensures Join([[c] + parts[0]] + parts[1..], sep) == [c] + Join(parts, sep)
  {
    var ps := [[c] + parts[0]] + parts[1..];
    assert ps[1..] == parts[1..];
  }

  /** Joining the pieces with the separator gives back the original text. */
  lemma {:induction false} JoinSplit(s: string, sep: string)
    requires |sep| > 0
    ensures Join(SplitOn(s, sep), sep) == s
    decreases |s|
  {
    if |s| < |sep| {
    } else if s[..|sep|] == sep {
      var rest := SplitOn(s[|sep|..], sep);
      JoinSplit(s[|sep|..], sep);
      assert ([""] + rest)[1..] == rest;
      assert s == sep + s[|sep|..];
    } else {
      var rest := SplitOn(s[1..], sep);
      JoinSplit(s[1..], sep);
      JoinConsFirst(s[0], rest, sep);
      assert s == [s[0]] + s[1..];
    }
  }

  /** Number of occurrences of `c` in `s`. */
  function CountChar(s: string, c: char): (n: nat)
    ensures n <= |s|
    ensures n == 0 <==> c !in s
    decreases |s|
  {
    if |s| == 0 then 0
    else (if s[0] == c then 1 else 0) + CountChar(s[1..], c)
  }

  /** Splitting on a single character yields one more piece than there are
      occurrences of it, and no piece contains it. */
  lemma {:induction false} SplitOnChar(s: string, c: char)
    ensures |SplitOn(s, [c])| == CountChar(s, c) + 1
    ensures forall k :: 0 <= k < |SplitOn(s, [c])| ==> c !in SplitOn(s, [c])[k]
    decreases |s|
  {
    if |s| == 0 {
    } else if s[..1] == [c] {
      SplitOnChar(s[1..], c);
      assert s[0] == c;
    } else {
      SplitOnChar(s[1..], c);
      assert s[0] != c;
      var rest := SplitOn(s[1..], [c]);
      var parts := [[s[0]] + rest[0]] + rest[1..];
      assert SplitOn(s, [c]) == parts;
      forall k | 0 <= k < |parts|
        ensures c !in parts[k]
      {
        if k == 0 {
          assert c !in rest[0];
        } else {
          assert parts[k] == rest[k];
        }
      }
    }
  }

  /** `strings.Contains` with a one-character needle is membership. */
  lemma {:induction false} ContainsChar(s: string, c: char)
    ensures Contains(s, [c]) <==> c in s
    decreases |s|
  {
    if |s| > 0 {
      ContainsChar(s[1..], c);
      assert s == [s[0]] + s[1..];
    }
  }

  /** Splitting on a character: the first piece is the text before its first
      occurrence, and the remaining pieces are the split of the text after it;
      without an occurrence the text is the only piece. */
  lemma {:induction false} SplitOnFirst(s: string, c: char)
    ensures var parts := SplitOn(s, [c]);
      c !in parts[0] && IsPrefix(parts[0], s) &&
      (c !in s ==> parts == [s]) &&
      (c in s ==> (|parts[0]| < |s| && s[|parts[0]|] == c &&
        parts == [parts[0]] + SplitOn(s[|parts[0]| + 1..], [c])))
    decreases |s|
  {
    if |s| == 0 {
    } else if s[..1] == [c] {
      assert s[0] == c;
    } else {
      assert s[0] != c;
      var rest := SplitOn(s[1..], [c]);
      SplitOnFirst(s[1..], c);
      var p := [s[0]] + rest[0];
      assert SplitOn(s, [c]) == [p] + rest[1..];
      assert s == [s[0]] + s[1..];
      if c in s {
        assert c in s[1..];
        assert s[|p| + 1..] == s[1..][|rest[0]| + 1..];
      }
    }
  }

  /** The text before the first `c`, when `s` is `p` followed by `c`. */
  lemma FirstPiece(p: string, c: char, rest: string)
    requires c !in p
    ensures SplitOn(p + [c] + rest, [c]) == [p] + SplitOn(rest, [c])
  {
    var s := p + [c] + rest;
    SplitOnFirst(s, c);
    var q := SplitOn(s, [c])[0];
    assert s[|p|] == c;
    assert forall i :: 0 <= i < |p| ==> s[i] == p[i];
    assert |q| == |p|;
    assert q == p;
    assert s[|p| + 1..] == rest;
  }

  /** No piece of a join holds `c` unless a piece or the separator does. */
  lemma {:induction false} JoinAvoids(parts: seq<string>, sep: string, c: char)
    requires c !in sep && forall k :: 0 <= k < |parts| ==> c !in parts[k]
    ensures c !in Join(parts, sep)
    decreases |parts|
  {
    if |parts| > 1 {
      JoinAvoids(parts[1..], sep, c);
    }
  }

  /** Splitting a join on a character no piece holds gives the pieces back. */
  lemma {:induction false} SplitJoin(parts: seq<string>, c: char)
    requires |parts| >= 1 && forall k :: 0 <= k < |parts| ==> c !in parts[k]
    ensures SplitOn(Join(parts, [c]), [c]) == parts
    decreases |parts|
  {
    if |parts| == 1 {
      SplitOnFirst(parts[0], c);
    } else {
      var rest := parts[1..];
      SplitJoin(rest, c);
      assert Join(parts, [c]) == parts[0] + [c] + Join(rest, [c]);
      FirstPiece(parts[0], c, Join(rest, [c]));
      assert parts == [parts[0]] + rest;
    }
  }

  /** `unicode.IsSpace`, the separator test of `strings.Fields`. */
  predicate IsSpace(c: char) {
    var n := c as int;
    n == 0x20 || 0x09 <= n <= 0x0D || n == 0x85 || n == 0xA0 || n == 0x1680
    || 0x2000 <= n <= 0x200A || n == 0x2028 || n == 0x2029 || n == 0x202F
    || n == 0x205F || n == 0x3000
  }

  /** The longest prefix of `s` without white space. */
  function Word(s: string): (w: string)
    requires |s| > 0 && !IsSpace(s[0])
    ensures 0 < |w| <= |s| && w == s[..|w|]
    ensures forall i :: 0 <= i < |w| ==> !IsSpace(w[i])
    ensures |w| == |s| || IsSpace(s[|w|])
    decreases |s|
  {
    if |s| == 1 || IsSpace(s[1]) then s[..1]
    else [s[0]] + Word(s[1..])
  }

  /** `strings.Fields(s)`: the maximal runs of non-space characters, in order. */
  function Fields(s: string): (fields: seq<string>)
    ensures forall k :: 0 <= k < |fields| ==> |fields[k]| > 0
    ensures forall k, i :: 0 <= k < |fields| && 0 <= i < |fields[k]| ==> !IsSpace(fields[k][i])
    decreases |s|
  {
    if |s| == 0 then []
    else if IsSpace(s[0]) then Fields(s[1..])
    else
      var w := Word(s);
      [w] + Fields(s[|w|..])
  }

  /** A non-empty run without white space. */
  predicate IsWord(w: string) {
    |w| > 0 && forall i :: 0 <= i < |w| ==> !IsSpace(w[i])
  }

  /** A word followed by white space or nothing is read whole. */
  lemma {:induction false} WordOfWord(w: string, rest: string)
    requires IsWord(w) && (|rest| == 0 || IsSpace(rest[0]))
    ensures Word(w + rest) == w
    decreases |w|
  {
    var s := w + rest;
    if |w| > 1 {
      assert s[1..] == w[1..] + rest;
      WordOfWord(w[1..], rest);
      assert w == [w[0]] + w[1..];
    } else {
      assert |s| == 1 || s[1] == rest[0];
    }
  }

  /** `strings.Fields` of a word, a space and the rest starts with the word. */
  lemma FieldsCons(w: string, rest: string)
    requires IsWord(w)
    ensures Fields(w + " " + rest) == [w] + Fields(rest)
  {
    var s := w + " " + rest;
    assert s == w + (" " + rest);
    WordOfWord(w, " " + rest);
    assert s[|w|..] == " " + rest;
    assert (" " + rest)[1..] == rest;
  }

  /** `strings.Fields` of a single word. */
  lemma FieldsOne(w: string)
    requires IsWord(w)
    ensures Fields(w) == [w]
  {
    WordOfWord(w, "");
    assert w + "" == w;
  }

  const MaxInt64: int := 0x7FFF_FFFF_FFFF_FFFF
  const MinInt64: int := -0x8000_0000_0000_0000

  /** The value of a string of decimal digits, most significant first. */
  function DecimalValue(s: string): (v: nat)
    requires AllDigits(s)
    decreases |s|
  {
    if |s| == 0 then 0
    else 10 * DecimalValue(s[..|s| - 1]) + DigitValue(s[|s| - 1])
  }

  /** Ten to the power `n`. */
  function Pow10(n: nat): (p: nat)
    ensures p >= 1
  {
    if n == 0 then 1 else 10 * Pow10(n - 1)
  }

  lemma ShiftDigit(va: int, p: int, vb: int, d: int)
    ensures 10 * (va * p + vb) + d == va * (10 * p) + (10 * vb + d)
  {
  }

  /** The value of a concatenation of digit strings: the digits of `a` are
      shifted left by the length of `b`. */
  lemma {:induction false} DecimalValueAppend(a: string, b: string)
    requires AllDigits(a) && AllDigits(b)
    ensures AllDigits(a + b)
    ensures DecimalValue(a + b) == DecimalValue(a) * Pow10(|b|) + DecimalValue(b)
    decreases |b|
  {
    var ab := a + b;
    assert AllDigits(ab) by {
      forall i | 0 <= i < |ab| ensures IsDigit(ab[i]) {
        if i < |a| { assert ab[i] == a[i]; } else { assert ab[i] == b[i - |a|]; }
      }
    }
    if |b| == 0 {
      assert ab == a;
    } else {
      var b' := b[..|b| - 1];
      var d := DigitValue(b[|b| - 1]);
      assert ab[..|ab| - 1] == a + b';
      assert ab[|ab| - 1] == b[|b| - 1];
      DecimalValueAppend(a, b');
      var va: int, vb': int, p: int := DecimalValue(a), DecimalValue(b'), Pow10(|b'|);
      assert DecimalValue(ab) == 10 * DecimalValue(a + b') + d;
      assert DecimalValue(b) == 10 * vb' + d;
      assert Pow10(|b|) == 10 * p;
      ShiftDigit(va, p, vb', d);
    }
  }

  /** What `strconv.ParseInt(s, 10, 64)` (and `strconv.Atoi` on a 64-bit
      platform) makes of `s`: an optional sign followed by at least one decimal
      digit; a value outside the 64-bit range is reported with the clamped bound. */
  datatype IntParse = Parsed(value: int) | OutOfRange(clamped: int) | Malformed

  /** `s` is the sign `sign` ("", "+" or "-") followed by the digits `d`. */
  predicate SignedNumeral(s: string, sign: string, d: string) {
    (sign == "" || sign == "+" || sign == "-") && |d| > 0 && AllDigits(d) && s == sign + d
  }

  /** The value a sign gives a digit string. */
  function SignedValue(sign: string, d: string): int
    requires AllDigits(d)
  {
    var v: int := DecimalValue(d);
    if sign == "-" then -v else v
  }

  function ParseDecimal(s: string): (p: IntParse)
    ensures p.Parsed? ==> MinInt64 <= p.value <= MaxInt64
    ensures p.Parsed? && AllDigits(s) && |s| > 0 ==> p.value == DecimalValue(s)
    ensures |s| == 0 ==> p == Malformed
    ensures p.OutOfRange? ==> p.clamped == MaxInt64 || p.clamped == MinInt64
  {
    var signed := |s| > 0 && (s[0] == '-' || s[0] == '+');
    var digits := if signed then s[1..] else s;
    if |digits| == 0 || !AllDigits(digits) then Malformed
    else
      var magnitude: int := DecimalValue(digits);
      var v: int := if signed && s[0] == '-' then -magnitude else magnitude;
      if v > MaxInt64 then OutOfRange(MaxInt64)
      else if v < MinInt64 then OutOfRange(MinInt64)
      else Parsed(v)
  }

  /** Only a signed numeral is well formed. */
  lemma WellFormedNumeral(s: string)
    ensures !ParseDecimal(s).Malformed? ==> exists sign, d :: SignedNumeral(s, sign, d)
  {
    if !ParseDecimal(s).Malformed? {
      if s[0] == '-' || s[0] == '+' {
        assert s[..1] == [s[0]] && s == s[..1] + s[1..];
        assert SignedNumeral(s, s[..1], s[1..]);
      } else {
        assert SignedNumeral(s, "", s);
      }
    }
  }

  /** Every signed numeral parses: to its value when that fits in 64 bits,
      and otherwise out of range, clamped at the bound on the value's side. */
  lemma ParseNumeral(s: string, sign: string, d: string)
    requires SignedNumeral(s, sign, d)
    ensures MinInt64 <= SignedValue(sign, d) <= MaxInt64 ==> ParseDecimal(s) == Parsed(SignedValue(sign, d))
    ensures SignedValue(sign, d) > MaxInt64 ==> ParseDecimal(s) == OutOfRange(MaxInt64)
    ensures SignedValue(sign, d) < MinInt64 ==> ParseDecimal(s) == OutOfRange(MinInt64)
  {
    assert IsDigit(d[0]);
    if sign == "" {
      assert s == d;
    } else {
      assert s[0] == sign[0] && s[1..] == d;
    }
  }

  /** `strconv.Atoi` / `ParseInt` with the error treated as fatal. */
  function ParseInt(s: string): (r: Result<int>)
    ensures r.Ok? ==> exists sign, d :: SignedNumeral(s, sign, d) && r.value == SignedValue(sign, d)
    ensures r.Ok? ==> MinInt64 <= r.value <= MaxInt64
    ensures forall sign, d :: SignedNumeral(s, sign, d) && MinInt64 <= SignedValue(sign, d) <= MaxInt64 ==>
      r == Ok(SignedValue(sign, d))
  {
    assert forall sign, d :: SignedNumeral(s, sign, d) ==>
      (MinInt64 <= SignedValue(sign, d) <= MaxInt64 ==> ParseDecimal(s) == Parsed(SignedValue(sign, d))) &&
      (SignedValue(sign, d) > MaxInt64 ==> ParseDecimal(s).OutOfRange?) &&
      (SignedValue(sign, d) < MinInt64 ==> ParseDecimal(s).OutOfRange?) by {
      forall sign, d | SignedNumeral(s, sign, d)
        ensures MinInt64 <= SignedValue(sign, d) <= MaxInt64 ==> ParseDecimal(s) == Parsed(SignedValue(sign, d))
        ensures SignedValue(sign, d) > MaxInt64 ==> ParseDecimal(s).OutOfRange?
        ensures SignedValue(sign, d) < MinInt64 ==> ParseDecimal(s).OutOfRange?
      {
        ParseNumeral(s, sign, d);
      }
    }
    WellFormedNumeral(s);
    match ParseDecimal(s)
    case Parsed(v) => Ok(v)
    case _ => Fatal("invalid integer: " + s)
  }

  /** The number Go returns next to an ignored error (`n, _ := strconv.Atoi(s)`):
      zero for malformed text, the clamped bound for an out-of-range value. */
  function ParseIntIgnoringError(s: string): (n: int)
    ensures ParseDecimal(s).Malformed? ==> n == 0
    ensures ParseDecimal(s).Parsed? ==> n == ParseDecimal(s).value
    ensures MinInt64 <= n <= MaxInt64
  {
    match ParseDecimal(s)
    case Parsed(v) => v
    case OutOfRange(c) => c
    case Malformed => 0
  }

  /** A string of digits whose value fits in 64 bits reads as that value. */
  lemma ParseDigits(s: string)
    requires |s| > 0 && AllDigits(s) && DecimalValue(s) <= MaxInt64
    ensures ParseInt(s) == Ok(DecimalValue(s))
  {
    assert IsDigit(s[0]);
  }
}
