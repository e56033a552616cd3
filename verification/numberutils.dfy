/** Trial-division factorisation and the multiple-of-primes helper of
    utils/numberutils.go. */
module NumberUtils {
  predicate IsPrime(p: int) {
    p >= 2 && forall d :: 2 <= d < p ==> p % d != 0
  }

  /** No number in [2, i) divides `n`. */
  predicate NoDivisorBelow(n: int, i: int) {
    forall d :: 2 <= d < i ==> n % d != 0
  }

  /** Quotient and remainder are unique. */
  lemma ModUnique(p: int, n: int, q: int, r: int)
    requires p > 0 && 0 <= r < p && n == p * q + r
    ensures n % p == r && n / p == q
  {
    var q', r' := n / p, n % p;
    assert n == p * q' + r';
    assert p * (q - q') == r' - r;
    MulSign(p, q - q');
  }

  lemma MulSign(p: int, k: int)
    requires p > 0
    ensures k >= 1 ==> p * k >= p
    ensures k <= -1 ==> p * k <= -p
  {
  }

  lemma MultipleMod(p: int, m: int)
    requires p > 0
    ensures (p * m) % p == 0 && (p * m) / p == m
  {
    ModUnique(p, p * m, m, 0);
  }

  lemma Swap(a: int, b: int, c: int)
    ensures a * (b * c) == b * (a * c)
  {
  }

  lemma MulLe(a: int, b: int, c: int)
    requires a <= b && c >= 0
    ensures a * c <= b * c
  {
  }

  lemma DividesTransitive(n: int, i: int, d: int)
    requires i > 0 && d > 0 && n % i == 0 && i % d == 0
    ensures n % d == 0
  {
    var a, b := n / i, i / d;
    assert n == i * a;
    assert i == d * b;
    assert n == d * (b * a);
    MultipleMod(d, b * a);
  }

  lemma DividesQuotient(n: int, i: int, d: int)
    requires i > 0 && d > 0 && n % i == 0 && (n / i) % d == 0
    ensures n % d == 0
  {
    var q := n / i;
    assert n == i * q;
    var r := q / d;
    assert q == d * r;
    assert n == d * (r * i);
    MultipleMod(d, r * i);
  }

  lemma NoSmallDivisorMeansPrime(n: int, i: int)
    requires n >= 2 && i >= 2 && i * i > n
    requires NoDivisorBelow(n, i)
    ensures IsPrime(n)
  {
    forall d | 2 <= d < n
      ensures n % d != 0
    {
      if n % d == 0 && d >= i {
        CoFactor(n, d, i);
      }
    }
  }

  /** A divisor at least `i` of a number below i * i leaves a cofactor below
      `i` that divides the number too. */
  lemma CoFactor(n: int, d: int, i: int)
    requires 2 <= d < n && n % d == 0 && i <= d && i * i > n && i >= 2
    ensures 2 <= n / d < i && n % (n / d) == 0
  {
    var e := n / d;
    assert n == d * e;
    MulSign(d, e);
    if e >= i {
      MulLe(i, e, i);
      MulLe(i, d, e);
    }
    MultipleMod(e, d);
  }

  lemma {:induction false} EuclidStep(p: int, x: int, b: int)
    requires IsPrime(p) && 0 < x < p && (x * b) % p == 0
    ensures b % p == 0
    decreases x
  {
    if x > 1 {
      var k, r := p / x, p % x;
      assert r != 0;
      var q := (x * b) / p;
      assert x * b == p * q;
      assert p == x * k + r;
      assert r * b == p * b - k * (x * b);
      assert r * b == p * (b - k * q);
      MultipleMod(p, b - k * q);
      EuclidStep(p, r, b);
    }
  }

  lemma Euclid(p: int, a: int, b: int)
    requires IsPrime(p) && (a * b) % p == 0
    ensures a % p == 0 || b % p == 0
  {
    if a % p != 0 {
      var x, k := a % p, a / p;
      assert a == p * k + x;
      var q := (a * b) / p;
      assert a * b == p * q;
      assert x * b == a * b - p * (k * b);
      assert x * b == p * (q - k * b);
      MultipleMod(p, q - k * b);
      EuclidStep(p, x, b);
    }
  }

  function Product(xs: seq<int>): int
    decreases |xs|
  {
    if |xs| == 0 then 1 else Product(xs[..|xs| - 1]) * xs[|xs| - 1]
  }

  lemma ProductSnoc(xs: seq<int>, x: int)
    ensures Product(xs + [x]) == Product(xs) * x
  {
    assert (xs + [x])[..|xs|] == xs;
  }

  /** The distinct elements of a list. */
  function Elements(xs: seq<int>): set<int> {
    set y | y in xs
  }

  ghost function PrimeDivisors(n: int): set<int> {
    set p | 2 <= p <= n && IsPrime(p) && n % p == 0
  }

  lemma PrimeDividingProduct(m: int, x: int, n: int, p: int)
    requires m >= 1 && IsPrime(x) && n == m * x
    requires p in PrimeDivisors(n)
    ensures p in PrimeDivisors(m) || p == x
  {
    Euclid(p, m, x);
    if m % p == 0 {
      var q := m / p;
      assert m == p * q;
      MulSign(p, q);
    } else {
      var q := x / p;
      assert x == p * q;
      MulSign(p, q);
    }
  }

  lemma DivisorOfFactor(m: int, x: int, n: int, p: int)
    requires m >= 1 && x >= 1 && n == m * x
    requires p in PrimeDivisors(m)
    ensures p in PrimeDivisors(n)
  {
    var q := m / p;
    assert m == p * q;
    assert n == p * (q * x);
    MultipleMod(p, q * x);
    MulLe(1, x, m);
  }

  lemma PrimeDivisorsTimesPrime(m: int, x: int)
    requires m >= 1 && IsPrime(x)
    ensures PrimeDivisors(m * x) == PrimeDivisors(m) + {x}
  {
    var n := m * x;
    forall p | p in PrimeDivisors(n)
      ensures p in PrimeDivisors(m) + {x}
    {
      PrimeDividingProduct(m, x, n, p);
    }
    forall p | p in PrimeDivisors(m)
      ensures p in PrimeDivisors(n)
    {
      DivisorOfFactor(m, x, n, p);
    }
    assert n == x * m;
    MultipleMod(x, m);
    MulLe(1, m, x);
    assert x in PrimeDivisors(n);
  }

  lemma {:induction false} FactorSetOfProduct(xs: seq<int>)
    requires forall k :: 0 <= k < |xs| ==> IsPrime(xs[k])
    ensures Product(xs) >= 1
    ensures Elements(xs) == PrimeDivisors(Product(xs))
    decreases |xs|
  {
    if |xs| == 0 {
      assert PrimeDivisors(1) == {};
    } else {
      var init, x := xs[..|xs| - 1], xs[|xs| - 1];
      assert xs == init + [x];
      FactorSetOfProduct(init);
      ProductSnoc(init, x);
      PrimeDivisorsTimesPrime(Product(init), x);
      MulLe(1, x, Product(init));
      assert Elements(xs) == Elements(init) + {x};
    }
  }

  predicate NonDecreasing(xs: seq<int>) {
    forall i, j :: 0 <= i < j < |xs| ==> xs[i] <= xs[j]
  }

  predicate PrimesAtMost(xs: seq<int>, bound: int) {
    forall k :: 0 <= k < |xs| ==> IsPrime(xs[k]) && xs[k] <= bound
  }

  /** Dividing out the smallest candidate `i` of a number with no divisor below
      `i`: the candidate is prime and the quotient still has no divisor below it. */
  lemma DivideOut(n: int, i: int)
    requires i >= 2 && n % i == 0 && NoDivisorBelow(n, i)
    ensures IsPrime(i) && n == i * (n / i) && NoDivisorBelow(n / i, i)
    ensures n >= 1 ==> 1 <= n / i < n
  {
    if n >= 1 {
      MulSign(i, n / i);
      MulLe(2, i, n / i);
    }
    forall d | 2 <= d < i ensures i % d != 0 {
      if i % d == 0 {
        DividesTransitive(n, i, d);
      }
    }
    forall d | 2 <= d < i ensures (n / i) % d != 0 {
      if (n / i) % d == 0 {
        DividesQuotient(n, i, d);
      }
    }
  }

  /** Moving from odd candidate `i` to `i + 2` skips only an even number. */
  lemma SkipEven(n: int, i: int)
    requires i >= 3 && i % 2 == 1 && n % i != 0 && NoDivisorBelow(n, i)
    ensures NoDivisorBelow(n, i + 2)
  {
    forall d | 2 <= d < i + 2 ensures n % d != 0 {
      if d == i + 1 && n % d == 0 {
        DividesTransitive(n, d, 2);
      }
    }
  }

  lemma HalfStep(f: seq<int>, n: int, number: int)
    requires n % 2 == 0 && Product(f) * n == number
    ensures Product(f + [2]) * (n / 2) == number
  {
    ProductSnoc(f, 2);
    var h := n / 2;
    assert n == 2 * h;
    assert Product(f) * 2 * h == Product(f) * (2 * h);
  }

  lemma DivideStep(f: seq<int>, n: int, i: int, number: int)
    requires i > 0 && n == i * (n / i) && Product(f) * n == number
    ensures Product(f + [i]) * (n / i) == number
  {
    ProductSnoc(f, i);
    var q := n / i;
    assert Product(f) * i * q == Product(f) * (i * q);
  }

  /** `FindPrimeFactors`: halve while even, then divide by each odd candidate
      while its square does not exceed the remainder; a remainder above 2 is the
      last prime factor.  The factors come out prime and in ascending order,
      multiply back to the number, and cover each of its prime divisors.  Zero
      would halve forever and is excluded; a negative number yields only its
      factors of two. */
  method FindPrimeFactors(number: int) returns (factors: seq<int>)
    requires number != 0
    ensures forall k :: 0 <= k < |factors| ==> IsPrime(factors[k])
    ensures NonDecreasing(factors)
    ensures number >= 1 ==> Product(factors) == number
    ensures number >= 1 ==> Elements(factors) == PrimeDivisors(number)
    ensures number < 0 ==> forall k :: 0 <= k < |factors| ==> factors[k] == 2
  {
    factors := [];
    var n := number;
    while n % 2 == 0
      invariant n != 0 && (number >= 1 ==> n >= 1) && (number < 0 ==> n < 0)
      invariant Product(factors) * n == number
      invariant forall k :: 0 <= k < |factors| ==> factors[k] == 2
      decreases if n > 0 then n else -n
    {
      HalfStep(factors, n, number);
      factors := factors + [2];
      n := n / 2;
    }
    var i := 3;
    while i * i <= n
      invariant i >= 3 && i % 2 == 1
      invariant n != 0 && (number >= 1 ==> n >= 1) && (number < 0 ==> n < 0)
      invariant Product(factors) * n == number
      invariant NoDivisorBelow(n, i)
      invariant PrimesAtMost(factors, i) && NonDecreasing(factors)
      invariant number < 0 ==> forall k :: 0 <= k < |factors| ==> factors[k] == 2
      decreases n - i
    {
      MulLe(1, i, i);
      ghost var n0 := n;
      while n % i == 0
        invariant 1 <= n <= n0
        invariant Product(factors) * n == number
        invariant NoDivisorBelow(n, i)
        invariant PrimesAtMost(factors, i) && NonDecreasing(factors)
        decreases n
      {
        DivideOut(n, i);
        DivideStep(factors, n, i, number);
        factors := factors + [i];
        n := n / i;
      }
      SkipEven(n, i);
      i := i + 2;
    }
    if n > 2 {
      NoSmallDivisorMeansPrime(n, i);
      assert n % n == 0;
      ProductSnoc(factors, n);
      factors := factors + [n];
    } else if number >= 1 {
      assert n % 2 != 0;
    }
    if number >= 1 {
      FactorSetOfProduct(factors);
    }
  }

  /** The primes dividing at least one of the numbers. */
  ghost function PrimeDivisorsOfAll(numbers: seq<int>): set<int>
    decreases |numbers|
  {
    if |numbers| == 0 then {}
    else PrimeDivisorsOfAll(numbers[..|numbers| - 1]) + PrimeDivisors(numbers[|numbers| - 1])
  }

  function Largest(numbers: seq<int>): (m: int)
    ensures m >= 0
    ensures forall k :: 0 <= k < |numbers| ==> numbers[k] <= m
    ensures m == 0 || m in numbers
    decreases |numbers|
  {
    if |numbers| == 0 then 0
    else
      var rest := Largest(numbers[..|numbers| - 1]);
      if numbers[|numbers| - 1] > rest then numbers[|numbers| - 1] else rest
  }

  /** The product of the members of `s` that lie in [2, n], each taken once. */
  ghost function ProductOfMembers(s: set<int>, n: int): (r: int)
    ensures r >= 1
    decreases n
  {
    if n < 2 then 1
    else (if n in s then n else 1) * ProductOfMembers(s, n - 1)
  }

  /** The product of the distinct primes dividing some input. */
  ghost function DistinctPrimeProduct(numbers: seq<int>): int {
    ProductOfMembers(PrimeDivisorsOfAll(numbers), Largest(numbers))
  }

  lemma {:induction false} ProductOfMembersBelow(s: set<int>, x: int, n: int)
    requires n < x
    ensures ProductOfMembers(s + {x}, n) == ProductOfMembers(s, n)
    decreases n
  {
    if n >= 2 {
      ProductOfMembersBelow(s, x, n - 1);
    }
  }

  lemma {:induction false} ProductOfMembersInsert(s: set<int>, x: int, n: int)
    requires x !in s && 2 <= x <= n
    ensures ProductOfMembers(s + {x}, n) == x * ProductOfMembers(s, n)
    decreases n
  {
    var below := ProductOfMembers(s, n - 1);
    if n == x {
      ProductOfMembersBelow(s, x, n - 1);
      assert ProductOfMembers(s + {x}, n) == x * below;
      assert ProductOfMembers(s, n) == 1 * below;
    } else {
      var c := if n in s then n else 1;
      assert ProductOfMembers(s + {x}, n) == c * ProductOfMembers(s + {x}, n - 1);
      assert ProductOfMembers(s, n) == c * below;
      ProductOfMembersInsert(s, x, n - 1);
      Swap(c, x, below);
    }
  }

  predicate Distinct(xs: seq<int>) {
    forall i, j :: 0 <= i < j < |xs| ==> xs[i] != xs[j]
  }

  lemma {:induction false} ProductOfDistinct(xs: seq<int>, n: int)
    requires Distinct(xs) && forall k :: 0 <= k < |xs| ==> 2 <= xs[k] <= n
    ensures Product(xs) == ProductOfMembers(Elements(xs), n)
    decreases |xs|
  {
    if |xs| > 0 {
      var init, x := xs[..|xs| - 1], xs[|xs| - 1];
      assert xs == init + [x];
      ProductOfDistinct(init, n);
      assert Elements(xs) == Elements(init) + {x};
      ProductOfMembersInsert(Elements(init), x, n);
    } else {
      assert Elements(xs) == {};
      ProductOfMembersEmpty(n);
    }
  }

  lemma {:induction false} ProductOfMembersEmpty(n: int)
    ensures ProductOfMembers({}, n) == 1
    decreases n
  {
    if n >= 2 {
      ProductOfMembersEmpty(n - 1);
    }
  }

  predicate AllPositive(numbers: seq<int>) {
    forall k :: 0 <= k < |numbers| ==> numbers[k] >= 1
  }

  /** Records each factor as a key of the factor map, keeping keys distinct. */
  method AddKeys(keys: seq<int>, factors: seq<int>) returns (result: seq<int>)
    requires Distinct(keys)
    ensures Distinct(result)
    ensures Elements(result) == Elements(keys) + Elements(factors)
  {
    result := keys;
    var f := 0;
    while f < |factors|
      invariant 0 <= f <= |factors|
      invariant Distinct(result)
      invariant Elements(result) == Elements(keys) + Elements(factors[..f])
    {
      assert factors[..f + 1] == factors[..f] + [factors[f]];
      if factors[f] !in result {
        assert Elements(result + [factors[f]]) == Elements(result) + {factors[f]};
        result := result + [factors[f]];
      }
      f := f + 1;
    }
    assert factors[..f] == factors;
  }

  /** `FindLCM`: the product of every distinct prime that occurs in the
      factorisation of some input.  For inputs that a prime divides more than
      once this is not their least common multiple. */
  method FindLCM(numbers: seq<int>) returns (lcm: int)
    requires forall k :: 0 <= k < |numbers| ==> numbers[k] != 0
    ensures lcm >= 1
    ensures AllPositive(numbers) ==> lcm == DistinctPrimeProduct(numbers)
  {
    var keys: seq<int> := [];
    var k := 0;
    while k < |numbers|
      invariant 0 <= k <= |numbers|
      invariant Distinct(keys)
      invariant forall y :: y in Elements(keys) ==> y >= 2
      invariant AllPositive(numbers) ==>
        Elements(keys) == PrimeDivisorsOfAll(numbers[..k])
        && forall y :: y in Elements(keys) ==> y <= Largest(numbers)
    {
      var factors := FindPrimeFactors(numbers[k]);
      ghost var before := keys;
      keys := AddKeys(keys, factors);
      assert forall y :: y in Elements(factors) ==> y >= 2;
      if AllPositive(numbers) {
        assert numbers[..k + 1][..k] == numbers[..k];
        assert forall y :: y in Elements(factors) ==> y <= numbers[k];
      }
      k := k + 1;
    }
    assert numbers[..k] == numbers;
    lcm := 1;
    var idx := 0;
    while idx < |keys|
      invariant 0 <= idx <= |keys|
      invariant lcm == Product(keys[..idx]) && lcm >= 1
    {
      assert keys[..idx + 1] == keys[..idx] + [keys[idx]];
      assert keys[idx] in Elements(keys);
      ProductSnoc(keys[..idx], keys[idx]);
      MulLe(1, keys[idx], lcm);
      lcm := lcm * keys[idx];
      idx := idx + 1;
    }
    assert keys[..idx] == keys;
    if AllPositive(numbers) {
      forall j | 0 <= j < |keys| ensures 2 <= keys[j] <= Largest(numbers) {
        assert keys[j] in Elements(keys);
      }
      ProductOfDistinct(keys, Largest(numbers));
    }
  }

  /** Every prime dividing some input divides the result. */
  lemma {:induction false} MemberDividesProduct(s: set<int>, n: int, p: int)
    requires p in s && 2 <= p <= n
    ensures ProductOfMembers(s, n) % p == 0
    decreases n
  {
    var below := ProductOfMembers(s, n - 1);
    var c := if n in s then n else 1;
    assert ProductOfMembers(s, n) == c * below;
    if n == p {
      MultipleMod(p, below);
    } else {
      MemberDividesProduct(s, n - 1, p);
      MultipleOfMultiple(c, below, p);
    }
  }

  lemma MultipleOfMultiple(c: int, m: int, p: int)
    requires p > 0 && m % p == 0
    ensures (c * m) % p == 0
  {
    var q := m / p;
    assert m == p * q;
    assert c * m == p * (c * q);
    MultipleMod(p, c * q);
  }

  /** For [2, 3, 4] the helper yields 6, which 4 does not divide: the result is
      not the least common multiple (12). */
  lemma DistinctPrimeProductExample()
    ensures DistinctPrimeProduct([]) == 1
    ensures DistinctPrimeProduct([2, 3, 4]) == 6
    ensures 6 % 4 != 0
  {
    assert IsPrime(2);
    assert IsPrime(3);
    assert !IsPrime(4) by { assert 4 % 2 == 0; }
    assert PrimeDivisors(2) == {2};
    assert PrimeDivisors(3) == {3};
    assert PrimeDivisors(4) == {2};
    assert [2, 3, 4][..2] == [2, 3];
    assert [2, 3][..1] == [2];
    assert [2][..0] == [];
    var s := PrimeDivisorsOfAll([2, 3, 4]);
    assert s == {2, 3};
    assert Largest([2, 3, 4]) == 4;
    assert ProductOfMembers(s, 1) == 1;
    assert ProductOfMembers(s, 2) == 2;
    assert ProductOfMembers(s, 3) == 6;
    assert ProductOfMembers(s, 4) == 6;
  }

  lemma {:induction false} PrimeDivisorsOfAllContains(numbers: seq<int>, k: int)
    requires 0 <= k < |numbers|
    ensures PrimeDivisors(numbers[k]) <= PrimeDivisorsOfAll(numbers)
    decreases |numbers|
  {
    if k < |numbers| - 1 {
      var init := numbers[..|numbers| - 1];
      assert init[k] == numbers[k];
      PrimeDivisorsOfAllContains(init, k);
    }
  }

  /** Every prime factor of every input divides the helper's result. */
  lemma DistinctPrimeProductDivisible(numbers: seq<int>, k: int, p: int)
    requires 0 <= k < |numbers| && p in PrimeDivisors(numbers[k])
    ensures DistinctPrimeProduct(numbers) % p == 0
  {
    PrimeDivisorsOfAllContains(numbers, k);
    MemberDividesProduct(PrimeDivisorsOfAll(numbers), Largest(numbers), p);
  }

  /** A prime divides some input exactly when it is in the collected set. */
  lemma {:induction false} PrimeDivisorsOfAllMeaning(numbers: seq<int>, p: int)
    ensures p in PrimeDivisorsOfAll(numbers) <==>
      exists k :: 0 <= k < |numbers| && p in PrimeDivisors(numbers[k])
    decreases |numbers|
  {
    if |numbers| > 0 {
      var init := numbers[..|numbers| - 1];
      PrimeDivisorsOfAllMeaning(init, p);
      if p in PrimeDivisorsOfAll(init) {
        var k :| 0 <= k < |init| && p in PrimeDivisors(init[k]);
        assert numbers[k] == init[k];
      }
      if exists k :: 0 <= k < |numbers| && p in PrimeDivisors(numbers[k]) {
        var k :| 0 <= k < |numbers| && p in PrimeDivisors(numbers[k]);
        if k < |numbers| - 1 {
          assert init[k] == numbers[k];
        }
      }
    }
  }

  /** The result depends only on which numbers occur: neither their order nor
      repetitions change it. */
  lemma SameElementsSameProduct(a: seq<int>, b: seq<int>)
    requires Elements(a) == Elements(b)
    ensures PrimeDivisorsOfAll(a) == PrimeDivisorsOfAll(b)
    ensures DistinctPrimeProduct(a) == DistinctPrimeProduct(b)
  {
    forall p ensures p in PrimeDivisorsOfAll(a) <==> p in PrimeDivisorsOfAll(b) {
      PrimeDivisorsOfAllMeaning(a, p);
      PrimeDivisorsOfAllMeaning(b, p);
      if exists k :: 0 <= k < |a| && p in PrimeDivisors(a[k]) {
        var k :| 0 <= k < |a| && p in PrimeDivisors(a[k]);
        assert a[k] in Elements(b);
        var j :| 0 <= j < |b| && b[j] == a[k];
      }
      if exists k :: 0 <= k < |b| && p in PrimeDivisors(b[k]) {
        var k :| 0 <= k < |b| && p in PrimeDivisors(b[k]);
        assert b[k] in Elements(a);
        var j :| 0 <= j < |a| && a[j] == b[k];
      }
    }
    var la, lb := Largest(a), Largest(b);
    if la != 0 {
      assert la in Elements(b);
    }
    if lb != 0 {
      assert lb in Elements(a);
    }
  }
}
