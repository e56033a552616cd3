/** The outcome of a computation that may stop the program.

    Every `panic(...)`, `log.Fatal(...)` and out-of-range index in the programs is
    modelled as `Fatal(message)`: the program prints a diagnostic and exits. */
module Outcome {

  datatype Result<+T> = Ok(value: T) | Fatal(message: string) {

    predicate IsFailure() {
      Fatal?
    }

    function PropagateFailure<U>(): Result<U>
      requires Fatal?
    {
      Fatal(message)
    }

    function Extract(): T
      requires Ok?
    {
      value
    }
  }

  /** The texts parsed in order by `parse`; the first failure stops the program. */
  function ParseEach<S, T>(texts: seq<S>, parse: S -> Result<T>): (r: Result<seq<T>>)
    ensures r.Ok? <==> forall k :: 0 <= k < |texts| ==> parse(texts[k]).Ok?
    ensures r.Ok? ==> |r.value| == |texts|
    ensures r.Ok? ==> forall k :: 0 <= k < |texts| ==> r.value[k] == parse(texts[k]).value
    decreases |texts|
  {
    if |texts| == 0 then Ok([])
    else
      var first := parse(texts[0]);
      var rest := ParseEach(texts[1..], parse);
      assert forall k :: 1 <= k < |texts| ==> texts[1..][k - 1] == texts[k];
      if first.Fatal? then Fatal(first.message)
      else if rest.Fatal? then Fatal(rest.message)
      else Ok([first.value] + rest.value)
  }

  /** Where the `k`-th of a run of reads starts when the first starts at
      `at` and each read leaves the position `next` gives. */
  function ChainStart(at: nat, k: nat, next: nat -> nat): nat
    decreases k
  {
    if k == 0 then at else ChainStart(next(at), k - 1, next)
  }

  /** `n` reads one after the other from position `at`; the first failure
      stops the program. */
  function ReadChain<T>(at: nat, n: nat, read: nat -> Result<T>, next: nat -> nat): (r: Result<seq<T>>)
    ensures r.Fatal? ==> exists k :: 0 <= k < n && read(ChainStart(at, k, next)).Fatal?
    ensures (forall k :: 0 <= k < n ==> read(ChainStart(at, k, next)).Ok?) ==> r.Ok?
    ensures r.Ok? ==> |r.value| == n
    ensures r.Ok? ==> forall k :: 0 <= k < n ==> read(ChainStart(at, k, next)) == Ok(r.value[k])
    decreases n
  {
    if n == 0 then Ok([])
    else
      var first := read(at);
      var rest := ReadChain(next(at), n - 1, read, next);
      assert forall k :: 1 <= k < n ==> ChainStart(at, k, next) == ChainStart(next(at), k - 1, next);
      if first.Fatal? then
        assert read(ChainStart(at, 0, next)).Fatal?;
        Fatal(first.message)
      else if rest.Fatal? then
        assert exists k :: 1 <= k < n && read(ChainStart(at, k, next)).Fatal? by {
          var k :| 0 <= k < n - 1 && read(ChainStart(next(at), k, next)).Fatal?;
          assert ChainStart(at, k + 1, next) == ChainStart(next(at), k, next);
        }
        Fatal(rest.message)
      else Ok([first.value] + rest.value)
  }

  /** The numbers added up, in order. */
  function Sum(xs: seq<int>): int
    decreases |xs|
  {
    if |xs| == 0 then 0 else Sum(xs[..|xs| - 1]) + xs[|xs| - 1]
  }

  /** Adding up from the front gives the same total. */
  lemma {:induction false} SumCons(x: int, xs: seq<int>)
    ensures Sum([x] + xs) == x + Sum(xs)
    decreases |xs|
  {
    if |xs| > 0 {
      var init := xs[..|xs| - 1];
      assert ([x] + xs)[..|xs|] == [x] + init;
      SumCons(x, init);
    }
  }

  /** The loop `sum += value(item)` of the programs' `main`s: the values of
      the items added up, stopping at the first item whose value fails. */
  function SumEach<S>(items: seq<S>, value: S -> Result<int>): (r: Result<int>)
    ensures r.Ok? <==> forall k :: 0 <= k < |items| ==> value(items[k]).Ok?
    ensures r.Fatal? ==> exists k :: (0 <= k < |items| && value(items[k]) == Fatal(r.message) &&
      forall j :: 0 <= j < k ==> value(items[j]).Ok?)
    decreases |items|
  {
    if |items| == 0 then Ok(0)
    else
      var first :- value(items[0]);
      var rest := SumEach(items[1..], value);
      assert forall k :: 1 <= k < |items| ==> items[1..][k - 1] == items[k];
      if rest.Fatal? then Fatal(rest.message) else Ok(first + rest.value)
  }

  /** What the loop adds up is the sum of the items' values. */
  lemma {:induction false} SumEachIsSum<S>(items: seq<S>, value: S -> Result<int>)
    requires SumEach(items, value).Ok?
    ensures ParseEach(items, value).Ok? && SumEach(items, value).value == Sum(ParseEach(items, value).value)
    decreases |items|
  {
    if |items| > 0 {
      var tail := items[1..];
      assert forall k :: 1 <= k < |items| ==> tail[k - 1] == items[k];
      SumEachIsSum(tail, value);
      var first := value(items[0]).value;
      assert SumEach(items, value).value == first + SumEach(tail, value).value;
      assert ParseEach(items, value).value == [first] + ParseEach(tail, value).value;
      SumCons(first, ParseEach(tail, value).value);
    }
  }

  /** Summing the items from `start` on. */
  lemma SumEachFrom<S>(items: seq<S>, start: nat, value: S -> Result<int>)
    requires start <= |items|
    ensures SumEach(items[start..], value).Ok? <==> forall k :: start <= k < |items| ==> value(items[k]).Ok?
    ensures SumEach(items[start..], value).Ok? ==>
      SumEach(items[start..], value).value == Sum(ParseEach(items[start..], value).value)
  {
    var rest := items[start..];
    assert forall k :: start <= k < |items| ==> rest[k - start] == items[k];
    if SumEach(rest, value).Ok? {
      SumEachIsSum(rest, value);
    }
  }

  /** Summing two runs of items one after the other adds up. */
  lemma {:induction false} SumEachAppend<S>(a: seq<S>, b: seq<S>, value: S -> Result<int>)
    requires SumEach(a, value).Ok? && SumEach(b, value).Ok?
    ensures SumEach(a + b, value) == Ok(SumEach(a, value).value + SumEach(b, value).value)
    decreases |a|
  {
    if |a| == 0 {
      assert a + b == b;
    } else {
      var tail := SumEach(a[1..], value);
      assert value(a[0]).Ok? && tail.Ok?;
      assert SumEach(a, value).value == value(a[0]).value + tail.value;
      SumEachAppend(a[1..], b, value);
      AppendParts(a, b);
      var whole := SumEach(a + b, value);
      assert whole == Ok(value(a[0]).value + SumEach(a[1..] + b, value).value);
    }
  }

  /** A non-empty sequence followed by another starts with its head, and
      continues with its tail followed by the other. */
  lemma AppendParts<T>(a: seq<T>, b: seq<T>)
    requires |a| > 0
    ensures (a + b)[0] == a[0] && (a + b)[1..] == a[1..] + b
  {
  }

  /** A value that may be absent: a digit not written at a position, a walk
      that did not finish within its fuel. */
  datatype Option<+T> = None | Some(value: T)
}
