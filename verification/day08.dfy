/** Day 8: Haunted Wasteland. A network of nodes, each with a left and a right
    neighbour, is walked by repeating an L/R instruction string. Part 1 counts
    the steps from AAA to ZZZ; part 2 counts, for every node ending in 'A',
    the steps to a node ending in 'Z', and combines the counts with `FindLCM`
    (08/part1/part1.go, 08/part2.go). */
module Day08 {
  import opened Outcome
  import opened Text
  import NumberUtils

  /** `element`: the two neighbours and whether each ends in 'Z'. Part 1 has
      no stop flags and ignores them here. */
  datatype Element = Element(left: string, right: string, leftStop: bool, rightStop: bool)

  /** `parse`: "AAA = (BBB, CCC)" becomes AAA with neighbours BBB and CCC.
      Both names are cut to the length of the left one's field minus its
      brackets. Missing fields and impossible slices panic. */
  function ParseNode(line: string): (r: Result<(string, Element)>)
    ensures r.Ok? <==>
      var f := Fields(line);
      |f| >= 4 && |f[2]| >= 2 && |f[2]| - 2 <= |f[3]|
    ensures r.Ok? ==>
      var f := Fields(line);
      var e := r.value.1;
      r.value.0 == f[0] && e.left == f[2][1..|f[2]| - 1] && e.right == f[3][..|f[2]| - 2]
    ensures r.Ok? ==> StopsConsistent(r.value.1)
  {
    var fields := Fields(line);
    if |fields| < 3 then Fatal("index out of range")
    else
      var lastChar := |fields[2]| - 1;
      if lastChar < 1 then Fatal("slice bounds out of range")
      else if |fields| < 4 then Fatal("index out of range")
      else if lastChar - 1 > |fields[3]| then Fatal("slice bounds out of range")
      else
        var left, right := fields[2][1..lastChar], fields[3][..lastChar - 1];
        Ok((fields[0], Element(left, right, HasSuffix(left, "Z"), HasSuffix(right, "Z"))))
  }

  /** The stop flags say whether the neighbours end in 'Z'. */
  predicate StopsConsistent(e: Element) {
    e.leftStop == HasSuffix(e.left, "Z") && e.rightStop == HasSuffix(e.right, "Z")
  }

  /** The fields of a well-formed line. */
  lemma FieldsOfNodeLine(a: string, b: string, c: string)
    requires IsWord(a) && IsWord(b) && IsWord(c)
    ensures Fields(a + " = (" + b + ", " + c + ")") == [a, "=", "(" + b + ",", c + ")"]
  {
    var l, r := "(" + b + ",", c + ")";
    BracketedWords(b, c);
    NodeLineShape(a, b, c);
    FieldsOfFour(a, l, r);
  }

  lemma BracketedWords(b: string, c: string)
    requires IsWord(b) && IsWord(c)
    ensures IsWord("(" + b + ",") && IsWord(c + ")")
  {
    var l, r := "(" + b + ",", c + ")";
    assert forall i :: 1 <= i <= |b| ==> l[i] == b[i - 1];
    assert forall i :: 0 <= i < |c| ==> r[i] == c[i];
  }

  lemma NodeLineShape(a: string, b: string, c: string)
    ensures a + " = (" + b + ", " + c + ")" == a + " " + ("=" + " " + (("(" + b + ",") + " " + (c + ")")))
  {
    var l, r := "(" + b + ",", c + ")";
    assert " = (" + b + ", " + c + ")" == " " + ("=" + " " + (l + " " + r));
  }

  lemma FieldsOfFour(a: string, l: string, r: string)
    requires IsWord(a) && IsWord(l) && IsWord(r)
    ensures Fields(a + " " + ("=" + " " + (l + " " + r))) == [a, "=", l, r]
  {
    assert IsWord("=");
    FieldsCons(a, "=" + " " + (l + " " + r));
    FieldsCons("=", l + " " + r);
    FieldsCons(l, r);
    FieldsOne(r);
  }

  /** A well-formed line with equally long names is read back into its parts. */
  lemma ParseNodeOfLine(a: string, b: string, c: string)
    requires IsWord(a) && IsWord(b) && IsWord(c) && |b| == |c|
    ensures ParseNode(a + " = (" + b + ", " + c + ")")
      == Ok((a, Element(b, c, HasSuffix(b, "Z"), HasSuffix(c, "Z"))))
  {
    FieldsOfNodeLine(a, b, c);
    var l, r := "(" + b + ",", c + ")";
    assert l[1..|l| - 1] == b;
    assert r[..|l| - 2] == c;
  }

  /** The part of the puzzle's example network that leads from AAA to ZZZ. */
  lemma ExampleNode()
    ensures ParseNode("AAA = (BBB, CCC)") == Ok(("AAA", Element("BBB", "CCC", false, false)))
  {
    ParseNodeOfLine("AAA", "BBB", "CCC");
    assert "AAA" + " = (" + "BBB" + ", " + "CCC" + ")" == "AAA = (BBB, CCC)";
  }

  /** The names of the nodes the first `n` lines define. */
  function Keys(lines: seq<string>, n: nat): set<string>
    requires n <= |lines| && forall k :: 0 <= k < n ==> ParseNode(lines[k]).Ok?
  {
    set k | 0 <= k < n :: ParseNode(lines[k]).value.0
  }

  lemma KeysSnoc(lines: seq<string>, n: nat)
    requires 0 < n <= |lines| && forall k :: 0 <= k < n ==> ParseNode(lines[k]).Ok?
    ensures Keys(lines, n) == Keys(lines, n - 1) + {ParseNode(lines[n - 1]).value.0}
  {
  }

  /** The loop filling `pathMap` from the first `n` lines. */
  function ParseMap(lines: seq<string>, n: nat): (r: Result<map<string, Element>>)
    requires n <= |lines|
    ensures r.Ok? <==> forall k :: 0 <= k < n ==> ParseNode(lines[k]).Ok?
    ensures r.Ok? ==> forall key :: key in r.value ==> StopsConsistent(r.value[key])
    decreases n
  {
    if n == 0 then Ok(map[])
    else
      var before := ParseMap(lines, n - 1);
      var node := ParseNode(lines[n - 1]);
      if before.Fatal? then Fatal(before.message)
      else if node.Fatal? then Fatal(node.message)
      else Ok(before.value[node.value.0 := node.value.1])
  }

  /** The map holds exactly the names the lines define, and a later line for
      a name overwrites an earlier one. */
  lemma {:induction false} ParseMapMeaning(lines: seq<string>, n: nat)
    requires n <= |lines| && ParseMap(lines, n).Ok?
    ensures ParseMap(lines, n).value.Keys == Keys(lines, n)
    ensures n > 0 ==>
      var last := ParseNode(lines[n - 1]).value;
      ParseMap(lines, n).value[last.0] == last.1
    decreases n
  {
    if n > 0 {
      assert ParseMap(lines, n - 1).Ok?;
      ParseMapMeaning(lines, n - 1);
      var before := ParseMap(lines, n - 1).value;
      var node := ParseNode(lines[n - 1]).value;
      assert ParseMap(lines, n).value == before[node.0 := node.1];
      KeysSnoc(lines, n);
    }
  }

  /** A name the map lacks reads as Go's zero element. */
  function Lookup(m: map<string, Element>, name: string): (e: Element)
    ensures name !in m ==> e == Element("", "", false, false)
  {
    if name in m then m[name] else Element("", "", false, false)
  }

  /** One step: 'L' goes to the left neighbour, 'R' to the right one, with
      the matching stop flag; any other instruction panics. */
  function Step(m: map<string, Element>, current: string, c: char): (r: Result<(string, bool)>)
    ensures r.Ok? <==> c == 'L' || c == 'R'
    ensures c == 'L' ==> r == Ok((Lookup(m, current).left, Lookup(m, current).leftStop))
    ensures c == 'R' ==> r == Ok((Lookup(m, current).right, Lookup(m, current).rightStop))
  {
    var e := Lookup(m, current);
    if c == 'L' then Ok((e.left, e.leftStop))
    else if c == 'R' then Ok((e.right, e.rightStop))
    else Fatal("Invalid input: " + [c])
  }

  /** In a map whose elements come from `parse`, the stop flag of a step says
      whether the node reached ends in 'Z'. */
  lemma StopFlagMeansEndsInZ(m: map<string, Element>, current: string, c: char)
    requires forall key :: key in m ==> StopsConsistent(m[key])
    requires Step(m, current, c).Ok?
    ensures Step(m, current, c).value.1 == HasSuffix(Step(m, current, c).value.0, "Z")
  {
    if current in m {
      assert StopsConsistent(m[current]);
    }
  }

  /** When a walk ends: part 1 on reaching ZZZ, part 2 on a stop flag; the
      third rule, on reaching a name ending in 'Z', is the one the flags stand
      for. */
  datatype Goal = ReachZZZ | StopFlag | EndsInZ

  predicate Stops(goal: Goal, next: string, flag: bool) {
    match goal
    case ReachZZZ => next == "ZZZ"
    case StopFlag => flag
    case EndsInZ => HasSuffix(next, "Z")
  }

  /** How a walk ends: after some steps, without running because there are
      no instructions, with a panic, or not within the fuel. */
  datatype Walk = Arrived(steps: nat) | NoInstructions | Panicked(message: string) | OutOfFuel

  /** The step loop from instruction `i` after `steps` steps, for at most
      `fuel` more steps; the instruction index wraps to 0 after the last. */
  function Follow(goal: Goal, instr: string, m: map<string, Element>, current: string,
                  i: nat, steps: nat, fuel: nat): (w: Walk)
    requires i < |instr|
    ensures !w.NoInstructions?
    decreases fuel
  {
    if fuel == 0 then OutOfFuel
    else
      var r := Step(m, current, instr[i]);
      if r.Fatal? then Panicked(r.message)
      else if Stops(goal, r.value.0, r.value.1) then Arrived(steps + 1)
      else Follow(goal, instr, m, r.value.0, if i == |instr| - 1 then 0 else i + 1, steps + 1, fuel - 1)
  }

  /** A whole walk from `start`; with no instructions the loop never runs. */
  function WalkFrom(goal: Goal, instr: string, m: map<string, Element>, start: string, fuel: nat): (w: Walk)
    ensures |instr| == 0 <==> w == NoInstructions
  {
    if |instr| == 0 then NoInstructions else Follow(goal, instr, m, start, 0, 0, fuel)
  }

  // The reference: where the n-th step goes

  /** The node reached after `n` steps, following the instructions
      cyclically; fatal once an instruction is neither 'L' nor 'R'. */
  function Position(instr: string, m: map<string, Element>, start: string, n: nat): Result<string>
    requires |instr| > 0
    decreases n
  {
    if n == 0 then Ok(start)
    else
      var p := Position(instr, m, start, n - 1);
      if p.Fatal? then p
      else
        var r := Step(m, p.value, instr[(n - 1) % |instr|]);
        if r.Fatal? then Fatal(r.message) else Ok(r.value.0)
  }

  /** The `n`-th step (from 1): the node it reaches and its stop flag. */
  function StepAt(instr: string, m: map<string, Element>, start: string, n: nat): (r: Result<(string, bool)>)
    requires |instr| > 0 && n >= 1
    ensures r.Ok? <==> Position(instr, m, start, n).Ok?
    ensures r.Ok? ==> Position(instr, m, start, n).value == r.value.0
  {
    var p := Position(instr, m, start, n - 1);
    if p.Fatal? then Fatal(p.message) else Step(m, p.value, instr[(n - 1) % |instr|])
  }

  /** The instruction index after the wrap-around test is the step count
      modulo the number of instructions. */
  lemma NextIndex(steps: nat, n: nat)
    requires n > 0
    ensures (if steps % n == n - 1 then 0 else steps % n + 1) == (steps + 1) % n
  {
    var q, i := steps / n, steps % n;
    assert steps == n * q + i;
    if i == n - 1 {
      NumberUtils.ModUnique(n, steps + 1, q + 1, 0);
    } else {
      NumberUtils.ModUnique(n, steps + 1, q, i + 1);
    }
  }

  /** Step `k` happens and does not end the walk. */
  predicate PassesStep(goal: Goal, instr: string, m: map<string, Element>, start: string, k: nat)
    requires |instr| > 0 && k >= 1
  {
    var r := StepAt(instr, m, start, k);
    r.Ok? && !Stops(goal, r.value.0, r.value.1)
  }

  /** Step `s` is the first that ends the walk. */
  predicate FirstStop(goal: Goal, instr: string, m: map<string, Element>, start: string, s: nat)
    requires |instr| > 0
  {
    s >= 1
    && (var r := StepAt(instr, m, start, s); r.Ok? && Stops(goal, r.value.0, r.value.1))
    && forall k :: 1 <= k < s ==> PassesStep(goal, instr, m, start, k)
  }

  lemma {:induction false} FollowSound(goal: Goal, instr: string, m: map<string, Element>, start: string,
                                       current: string, steps: nat, fuel: nat)
    requires |instr| > 0
    requires Position(instr, m, start, steps) == Ok(current)
    requires forall k :: 1 <= k <= steps ==> PassesStep(goal, instr, m, start, k)
    ensures
      var w := Follow(goal, instr, m, current, steps % |instr|, steps, fuel);
      w.Arrived? ==> steps < w.steps <= steps + fuel && FirstStop(goal, instr, m, start, w.steps)
    decreases fuel
  {
    if fuel > 0 {
      var i := steps % |instr|;
      var r := Step(m, current, instr[i]);
      assert StepAt(instr, m, start, steps + 1) == r;
      if r.Ok? {
        if !Stops(goal, r.value.0, r.value.1) {
          NextIndex(steps, |instr|);
          assert PassesStep(goal, instr, m, start, steps + 1);
          FollowSound(goal, instr, m, start, r.value.0, steps + 1, fuel - 1);
        }
      }
    }
  }

  lemma {:induction false} FollowComplete(goal: Goal, instr: string, m: map<string, Element>, start: string,
                                          current: string, steps: nat, fuel: nat, s: nat)
    requires |instr| > 0
    requires Position(instr, m, start, steps) == Ok(current)
    requires FirstStop(goal, instr, m, start, s) && steps < s <= steps + fuel
    ensures Follow(goal, instr, m, current, steps % |instr|, steps, fuel) == Arrived(s)
    decreases fuel
  {
    var i := steps % |instr|;
    var r := Step(m, current, instr[i]);
    assert StepAt(instr, m, start, steps + 1) == r;
    if s > steps + 1 {
      assert PassesStep(goal, instr, m, start, steps + 1);
      NextIndex(steps, |instr|);
      FollowComplete(goal, instr, m, start, r.value.0, steps + 1, fuel - 1, s);
    }
  }

  /** With instructions, a walk arrives after `s` steps exactly when step `s`
      is the first to end it and the fuel reaches that far. */
  lemma WalkMeaning(goal: Goal, instr: string, m: map<string, Element>, start: string, fuel: nat, s: nat)
    requires |instr| > 0
    ensures WalkFrom(goal, instr, m, start, fuel) == Arrived(s) <==>
      FirstStop(goal, instr, m, start, s) && s <= fuel
  {
    FollowSound(goal, instr, m, start, start, 0, fuel);
    if FirstStop(goal, instr, m, start, s) && s <= fuel {
      FollowComplete(goal, instr, m, start, start, 0, fuel, s);
    }
  }

  /** Walking by the stop flags is walking to the first name ending in 'Z'. */
  lemma {:induction false} FlagsMatchNames(instr: string, m: map<string, Element>, current: string,
                                           i: nat, steps: nat, fuel: nat)
    requires i < |instr|
    requires forall key :: key in m ==> StopsConsistent(m[key])
    ensures Follow(StopFlag, instr, m, current, i, steps, fuel) == Follow(EndsInZ, instr, m, current, i, steps, fuel)
    decreases fuel
  {
    if fuel > 0 {
      var r := Step(m, current, instr[i]);
      if r.Ok? {
        StopFlagMeansEndsInZ(m, current, instr[i]);
        FlagsMatchNames(instr, m, r.value.0, if i == |instr| - 1 then 0 else i + 1, steps + 1, fuel - 1);
      }
    }
  }

  /** More fuel changes nothing about a walk that arrived. */
  lemma {:induction false} MoreFuel(goal: Goal, instr: string, m: map<string, Element>, current: string,
                                    i: nat, steps: nat, fuel: nat, more: nat)
    requires i < |instr| && fuel <= more
    requires Follow(goal, instr, m, current, i, steps, fuel).Arrived?
    ensures Follow(goal, instr, m, current, i, steps, more) == Follow(goal, instr, m, current, i, steps, fuel)
    decreases fuel
  {
    var r := Step(m, current, instr[i]);
    if r.Ok? && !Stops(goal, r.value.0, r.value.1) {
      MoreFuel(goal, instr, m, r.value.0, if i == |instr| - 1 then 0 else i + 1, steps + 1, fuel - 1, more - 1);
    }
  }

  // Part 1

  /** The instructions and the network of a file: line 0 and lines 2 on. */
  function Network(lines: seq<string>): (r: Result<(string, map<string, Element>)>)
    ensures r.Ok? <==> |lines| >= 1 && (|lines| <= 2 || ParseMap(lines[2..], |lines| - 2).Ok?)
    ensures r.Ok? ==> r.value.0 == lines[0]
    ensures r.Ok? ==> forall key :: key in r.value.1 ==> StopsConsistent(r.value.1[key])
  {
    if |lines| == 0 then Fatal("index out of range [0] with length 0")
    else
      var m :- if |lines| <= 2 then Ok(map[]) else ParseMap(lines[2..], |lines| - 2);
      Ok((lines[0], m))
  }

  /** Part 1 answer: the walk from AAA to ZZZ (with no instructions the
      program reports 0 steps). */
  function StepsToZZZ(lines: seq<string>, fuel: nat): (w: Walk)
    ensures Network(lines).Fatal? ==> w == Panicked(Network(lines).message)
    ensures Network(lines).Ok? ==>
      var (instr, m) := Network(lines).value;
      w == WalkFrom(ReachZZZ, instr, m, "AAA", fuel)
  {
    match Network(lines)
    case Fatal(msg) => Panicked(msg)
    case Ok((instr, m)) => WalkFrom(ReachZZZ, instr, m, "AAA", fuel)
  }

  // Part 2

  /** `getStartingNodes`: the first three characters of every line, kept
      when they end in 'A'; a shorter line panics. */
  function StartingNodes(lines: seq<string>): (r: Result<seq<string>>)
    ensures r.Ok? <==> forall k :: 0 <= k < |lines| ==> |lines[k]| >= 3
    ensures r.Ok? ==> forall k :: 0 <= k < |r.value| ==> |r.value[k]| == 3 && HasSuffix(r.value[k], "A")
    ensures r.Ok? ==> forall k :: 0 <= k < |lines| && HasSuffix(lines[k][..3], "A") ==> lines[k][..3] in r.value
    ensures r.Ok? ==> forall x :: x in r.value ==> exists k :: 0 <= k < |lines| && lines[k][..3] == x
    decreases |lines|
  {
    if |lines| == 0 then Ok([])
    else
      var init := lines[..|lines| - 1];
      var before := StartingNodes(init);
      var line := lines[|lines| - 1];
      if before.Fatal? then Fatal(before.message)
      else if |line| < 3 then Fatal("slice bounds out of range")
      else
        assert forall k :: 0 <= k < |init| ==> init[k] == lines[k];
        var location := line[..3];
        if HasSuffix(location, "A") then Ok(before.value + [location]) else before
  }

  /** One more line appends its name when the name ends in 'A'. */
  lemma StartingNodesSnoc(lines: seq<string>, line: string)
    requires StartingNodes(lines + [line]).Ok?
    ensures StartingNodes(lines).Ok? && |line| >= 3
    ensures StartingNodes(lines + [line]).value ==
      StartingNodes(lines).value + (if HasSuffix(line[..3], "A") then [line[..3]] else [])
  {
    assert (lines + [line])[..|lines|] == lines;
    assert (lines + [line])[|lines|] == line;
  }

  /** The starts of two runs of lines are the starts of the first run
      followed by those of the second, each in file order and as often as
      they occur. */
  lemma {:induction false} StartingNodesConcat(a: seq<string>, b: seq<string>)
    requires StartingNodes(a + b).Ok?
    ensures StartingNodes(a).Ok? && StartingNodes(b).Ok?
    ensures StartingNodes(a + b).value == StartingNodes(a).value + StartingNodes(b).value
    decreases |b|
  {
    if |b| == 0 {
      assert a + b == a;
    } else {
      var init, line := b[..|b| - 1], b[|b| - 1];
      assert a + b == (a + init) + [line];
      assert b == init + [line];
      StartingNodesSnoc(a + init, line);
      StartingNodesConcat(a, init);
      StartingNodesSnoc(init, line);
    }
  }

  /** Walk `k` is the first of the parallel walks that does not arrive. */
  predicate FirstStuck(instr: string, m: map<string, Element>, starts: seq<string>, fuel: nat, k: int) {
    0 <= k < |starts| && !WalkFrom(StopFlag, instr, m, starts[k], fuel).Arrived? &&
    forall j :: 0 <= j < k ==> WalkFrom(StopFlag, instr, m, starts[j], fuel).Arrived?
  }

  /** The step counts of the parallel paths: the walk of every start by the
      stop flags, in order; there are counts exactly when every walk arrives.
      Without instructions no count is recorded. */
  function PathCounts(instr: string, m: map<string, Element>, starts: seq<string>, fuel: nat): (r: Result<Option<seq<nat>>>)
    ensures |instr| == 0 ==> r == Ok(Some([]))
    ensures |instr| > 0 ==>
      (r.Ok? && r.value.Some? <==> forall k :: 0 <= k < |starts| ==> WalkFrom(StopFlag, instr, m, starts[k], fuel).Arrived?)
    ensures r.Ok? && r.value.Some? && |instr| > 0 ==>
      |r.value.value| == |starts| &&
      forall k :: 0 <= k < |starts| ==> WalkFrom(StopFlag, instr, m, starts[k], fuel) == Arrived(r.value.value[k])
    ensures r.Ok? && r.value.Some? ==> NumberUtils.AllPositive(r.value.value)
    decreases |starts|
  {
    if |starts| == 0 || |instr| == 0 then Ok(Some([]))
    else
      var init := starts[..|starts| - 1];
      var before := PathCounts(instr, m, init, fuel);
      var w := WalkFrom(StopFlag, instr, m, starts[|starts| - 1], fuel);
      assert forall k :: 0 <= k < |init| ==> init[k] == starts[k];
      if before.Fatal? || before.value.None? then before
      else if w.Panicked? then Fatal(w.message)
      else if !w.Arrived? then Ok(None)
      else
        FollowSound(StopFlag, instr, m, starts[|starts| - 1], starts[|starts| - 1], 0, fuel);
        Ok(Some(before.value.value + [w.steps]))
  }

  /** The first walk that does not arrive decides: a panic stops the
      program, a walk out of fuel gives `None`. */
  lemma {:induction false} PathCountsStuck(instr: string, m: map<string, Element>, starts: seq<string>, fuel: nat)
    requires |instr| > 0
    ensures PathCounts(instr, m, starts, fuel).Fatal? <==>
      exists k :: FirstStuck(instr, m, starts, fuel, k) && WalkFrom(StopFlag, instr, m, starts[k], fuel).Panicked?
    ensures PathCounts(instr, m, starts, fuel) == Ok(None) <==>
      exists k :: FirstStuck(instr, m, starts, fuel, k) && WalkFrom(StopFlag, instr, m, starts[k], fuel).OutOfFuel?
    decreases |starts|
  {
    if |starts| > 0 {
      var init := starts[..|starts| - 1];
      PathCountsStuck(instr, m, init, fuel);
      FirstStuckGrows(instr, m, starts, fuel);
      var before := PathCounts(instr, m, init, fuel);
      if !(before.Fatal? || before.value.None?) {
        assert !WalkFrom(StopFlag, instr, m, starts[|starts| - 1], fuel).Arrived? ==>
          FirstStuck(instr, m, starts, fuel, |starts| - 1);
      }
    }
  }

  /** One more walk keeps the first stuck walk of the earlier ones, and is
      the first stuck walk itself only when all earlier walks arrived. */
  lemma FirstStuckGrows(instr: string, m: map<string, Element>, starts: seq<string>, fuel: nat)
    requires |starts| > 0
    ensures var init := starts[..|starts| - 1];
      forall k :: FirstStuck(instr, m, starts, fuel, k) <==>
        FirstStuck(instr, m, init, fuel, k) ||
        (k == |starts| - 1 && !WalkFrom(StopFlag, instr, m, starts[k], fuel).Arrived? &&
         forall j :: 0 <= j < |init| ==> WalkFrom(StopFlag, instr, m, init[j], fuel).Arrived?)
  {
    var init := starts[..|starts| - 1];
    assert forall k :: 0 <= k < |init| ==> init[k] == starts[k];
  }

  /** Part 2 answer: `FindLCM` of the path counts, which is the product of
      the distinct primes dividing them (1 without paths). */
  method StepsForAllPaths(lines: seq<string>, fuel: nat) returns (r: Result<Option<int>>)
    ensures r.Ok? <==> (Network(lines).Ok? && |lines| >= 2 && StartingNodes(lines[2..]).Ok? &&
                        var (instr, m) := Network(lines).value;
                        PathCounts(instr, m, StartingNodes(lines[2..]).value, fuel).Ok?)
    ensures r.Ok? ==> (r.value.Some? <==>
                       var (instr, m) := Network(lines).value;
                       PathCounts(instr, m, StartingNodes(lines[2..]).value, fuel).value.Some?)
    ensures r.Ok? && r.value.Some? ==> (
      |lines| >= 2 &&
      var (instr, m) := Network(lines).value;
      var counts := PathCounts(instr, m, StartingNodes(lines[2..]).value, fuel);
      counts.Ok? && counts.value.Some? &&
      r.value.value == NumberUtils.DistinctPrimeProduct(counts.value.value) && r.value.value >= 1)
  {
    var network := Network(lines);
    if network.Fatal? {
      return Fatal(network.message);
    }
    var (instr, m) := network.value;
    if |lines| < 2 {
      return Fatal("slice bounds out of range");
    }
    var starts := StartingNodes(lines[2..]);
    if starts.Fatal? {
      return Fatal(starts.message);
    }
    var counts := PathCounts(instr, m, starts.value, fuel);
    if counts.Fatal? {
      return Fatal(counts.message);
    }
    if counts.value.None? {
      return Ok(None);
    }
    var lcm := NumberUtils.FindLCM(counts.value.value);
    return Ok(Some(lcm));
  }
}
