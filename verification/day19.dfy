/** Day 19: Aplenty. Each workflow is a list of rules "p<n:target" or
    "p>n:target" on one of a part's four ratings (x, m, a, s), ending with an
    unconditional target. A part starts at workflow "in"; the first rule that
    matches sends it to the named workflow, or accepts ("A") or rejects ("R")
    it. The answer adds up the four ratings of every accepted part
    (19/part1/part1.go).

    The program's `utils.AsInt` is a parameter `asInt` here, and the recursion
    of `runWorkflow`, which never ends on workflows that send a part round in
    a circle, is bounded by `fuel`: each jump to another workflow uses one. */
module Day19 {
  import opened Outcome
  import opened Text

  datatype Comparator = LessThan | GreaterThan

  /** A rule of a workflow; the final, unconditional one has `isGoTo` set and
      the zero values of Go in the other fields. */
  datatype Step = Step(paramName: string, comp: Comparator, value: int, target: string, isGoTo: bool)

  datatype Workflow = Workflow(name: string, steps: seq<Step>)

  datatype Part = Part(x: int, m: int, a: int, s: int)

  const BadFormat := "Unexpected format: "

  const BadParam := "Unexpected value found: "

  const EndReached := "The end was unexpectedly reached."

  /** What the runtime reports for `s[i:j]` out of range. */
  const SliceOutOfRange := "slice bounds out of range"

  /** What the runtime reports for `s[i]` out of range. */
  const IndexOutOfRange := "index out of range"

  /** Where the model stops a chain of workflows longer than its fuel. */
  const OutOfFuel := "workflow chain longer than the fuel"

  // Parsing a rule

  function CompChar(c: Comparator): char {
    if c == LessThan then '<' else '>'
  }

  /** The loop of `parseWorkflowStep`: the first index from `i` on holding
      '<' or '>', or the length when there is none. */
  function FirstComparator(s: string, i: nat): (k: nat)
    requires i <= |s|
    ensures i <= k <= |s|
    ensures forall j :: i <= j < k ==> s[j] != '<' && s[j] != '>'
    ensures k < |s| ==> s[k] == '<' || s[k] == '>'
    decreases |s| - i
  {
    if i == |s| || s[i] == '<' || s[i] == '>' then i else FirstComparator(s, i + 1)
  }

  /** `parseWorkflowStep`: the name before the first comparator, the number and
      target around the only ':' after it. Without a comparator the slice
      after it is out of range; with other than one ':' after it the step is
      malformed. */
  function ParseStep(step: string, asInt: string -> int): (r: Result<Step>)
    ensures r.Ok? ==> (!r.value.isGoTo && '<' !in r.value.paramName && '>' !in r.value.paramName &&
      ':' !in r.value.target)
    ensures r.Ok? ==> exists v :: (':' !in v && r.value.value == asInt(v) &&
      step == r.value.paramName + [CompChar(r.value.comp)] + v + ":" + r.value.target)
    ensures (forall j :: 0 <= j < |step| ==> step[j] != '<' && step[j] != '>') ==> r == Fatal(SliceOutOfRange)
  {
    var i := FirstComparator(step, 0);
    if i == |step| then Fatal(SliceOutOfRange)
    else
      var remain := step[i + 1..];
      var pieces := SplitOn(remain, ":");
      if |pieces| != 2 then Fatal(BadFormat + remain)
      else
        var st := Step(step[..i], if step[i] == '<' then LessThan else GreaterThan, asInt(pieces[0]), pieces[1], false);
        StepPieces(step, i, pieces);
        Ok(st)
  }

  lemma StepPieces(step: string, i: nat, pieces: seq<string>)
    requires i < |step| && pieces == SplitOn(step[i + 1..], ":") && |pieces| == 2
    ensures ':' !in pieces[0] && ':' !in pieces[1]
    ensures step == step[..i] + [step[i]] + pieces[0] + ":" + pieces[1]
  {
    var remain := step[i + 1..];
    SplitOnChar(remain, ':');
    JoinSplit(remain, ":");
    assert Join(pieces, ":") == pieces[0] + ":" + pieces[1];
    assert step == step[..i] + [step[i]] + remain;
  }

  /** A rule written out reads back as itself. */
  lemma ParseStepOf(name: string, comp: Comparator, v: string, target: string, asInt: string -> int)
    requires '<' !in name && '>' !in name && ':' !in v && ':' !in target
    ensures ParseStep(name + [CompChar(comp)] + v + ":" + target, asInt) == Ok(Step(name, comp, asInt(v), target, false))
  {
    var step := name + [CompChar(comp)] + v + ":" + target;
    var i := FirstComparator(step, 0);
    assert step[|name|] == CompChar(comp);
    assert forall j :: 0 <= j < |name| ==> step[j] == name[j];
    assert i == |name|;
    assert step[..i] == name;
    var remain := step[i + 1..];
    assert remain == v + [':'] + target;
    FirstPiece(v, ':', target);
    SplitOnFirst(target, ':');
  }

  // Parsing a workflow

  /** The final rule of a workflow: go to `target` whatever the part. */
  function GoToStep(target: string): Step {
    Step("", LessThan, 0, target, true)
  }

  /** The conditional rules of a workflow, or the complaint about the first
      that does not parse. */
  function ParseSteps(items: seq<string>, asInt: string -> int): (r: Result<seq<Step>>)
    ensures r.Ok? <==> forall k :: 0 <= k < |items| ==> ParseStep(items[k], asInt).Ok?
    ensures r.Ok? ==> |r.value| == |items| && forall k :: 0 <= k < |items| ==> r.value[k] == ParseStep(items[k], asInt).value
    ensures r.Fatal? ==> exists k :: (0 <= k < |items| && ParseStep(items[k], asInt) == Fatal(r.message) &&
      forall j :: 0 <= j < k ==> ParseStep(items[j], asInt).Ok?)
    decreases |items|
  {
    if |items| == 0 then Ok([])
    else
      var first := ParseStep(items[0], asInt);
      var rest := ParseSteps(items[1..], asInt);
      assert forall k :: 1 <= k < |items| ==> items[1..][k - 1] == items[k];
      if first.Fatal? then Fatal(first.message)
      else if rest.Fatal? then Fatal(rest.message)
      else Ok([first.value] + rest.value)
  }

  /** The comma-separated items after the first '{' of a workflow line. */
  function Items(raw: string): (items: seq<string>)
    requires |SplitOn(raw, "{")| >= 2
    ensures |items| >= 1
  {
    SplitOn(SplitOn(raw, "{")[1], ",")
  }

  /** All items but the last: the conditional rules. */
  function Rules(raw: string): seq<string>
    requires |SplitOn(raw, "{")| >= 2
  {
    Items(raw)[..|Items(raw)| - 1]
  }

  /** The last item: the target, still followed by the closing brace. */
  function Target(raw: string): string
    requires |SplitOn(raw, "{")| >= 2
  {
    Items(raw)[|Items(raw)| - 1]
  }

  /** The name of a workflow line is the '{'-free text before its first '{'. */
  lemma NameCut(raw: string)
    ensures var pieces := SplitOn(raw, "{");
      '{' !in pieces[0] && ('{' !in raw ==> |pieces| < 2) &&
      (|pieces| >= 2 ==> IsPrefix(pieces[0] + "{", raw))
  {
    var pieces := SplitOn(raw, "{");
    SplitOnFirst(raw, '{');
    if |pieces| >= 2 {
      assert raw[..|pieces[0]| + 1] == pieces[0] + "{";
    }
  }

  /** `parseWorkflow`: the name before the first '{', then the comma-separated
      rules; all but the last are conditional, and the last, its final
      character (the '}') cut off, is the unconditional target. */
  function ParseWorkflow(raw: string, asInt: string -> int): (r: Result<Workflow>)
    ensures r.Ok? ==> '{' !in r.value.name && IsPrefix(r.value.name + "{", raw)
    ensures r.Ok? ==> (|r.value.steps| >= 1 && r.value.steps[|r.value.steps| - 1].isGoTo &&
      forall k :: 0 <= k < |r.value.steps| - 1 ==> !r.value.steps[k].isGoTo)
    ensures '{' !in raw ==> r == Fatal(IndexOutOfRange)
    ensures |SplitOn(raw, "{")| < 2 ==> r == Fatal(IndexOutOfRange)
    ensures |SplitOn(raw, "{")| >= 2 ==>
      (r.Ok? <==> (ParseSteps(Rules(raw), asInt).Ok? && |Target(raw)| > 0))
    ensures r.Ok? ==> (|SplitOn(raw, "{")| >= 2 &&
      r.value.steps == ParseSteps(Rules(raw), asInt).value + [GoToStep(Target(raw)[..|Target(raw)| - 1])])
  {
    var pieces := SplitOn(raw, "{");
    NameCut(raw);
    if |pieces| < 2 then Fatal(IndexOutOfRange)
    else
      var steps :- ParseSteps(Rules(raw), asInt);
      var last := Target(raw);
      if |last| == 0 then Fatal(SliceOutOfRange)
      else Ok(Workflow(pieces[0], steps + [GoToStep(last[..|last| - 1])]))
  }

  /** A workflow written out reads back as itself. */
  lemma ParseWorkflowOf(name: string, rules: seq<string>, target: string, asInt: string -> int)
    requires '{' !in name && '{' !in target && ',' !in target
    requires forall k :: 0 <= k < |rules| ==> '{' !in rules[k] && ',' !in rules[k]
    requires ParseSteps(rules, asInt).Ok?
    ensures ParseWorkflow(name + "{" + Join(rules + [target + "}"], ","), asInt) ==
      Ok(Workflow(name, ParseSteps(rules, asInt).value + [GoToStep(target)]))
  {
    var body := WorkflowPieces(name, rules, target);
    ParseWorkflowCut(name + "{" + body, name, body, rules, target, asInt);
  }

  /** `parseWorkflow` once the input is cut into its name and items. */
  lemma ParseWorkflowCut(raw: string, name: string, body: string, rules: seq<string>, target: string, asInt: string -> int)
    requires SplitOn(raw, "{") == [name, body] && SplitOn(body, ",") == rules + [target + "}"]
    requires (target + "}")[..|target|] == target
    requires ParseSteps(rules, asInt).Ok?
    ensures ParseWorkflow(raw, asInt) == Ok(Workflow(name, ParseSteps(rules, asInt).value + [GoToStep(target)]))
  {
    var items := rules + [target + "}"];
    assert items[..|items| - 1] == rules;
  }

  /** How `parseWorkflow` cuts a workflow written out. */
  lemma WorkflowPieces(name: string, rules: seq<string>, target: string) returns (body: string)
    requires '{' !in name && '{' !in target && ',' !in target
    requires forall k :: 0 <= k < |rules| ==> '{' !in rules[k] && ',' !in rules[k]
    ensures body == Join(rules + [target + "}"], ",")
    ensures SplitOn(name + "{" + body, "{") == [name, body]
    ensures SplitOn(body, ",") == rules + [target + "}"]
    ensures (target + "}")[..|target|] == target
  {
    var last := target + "}";
    assert forall i :: 0 <= i < |last| ==> last[i] == if i < |target| then target[i] else '}';
    var items := rules + [last];
    assert forall k :: 0 <= k < |items| ==> items[k] == if k < |rules| then rules[k] else last;
    body := Join(items, ",");
    JoinAvoids(items, ",", '{');
    FirstPiece(name, '{', body);
    SplitOnFirst(body, '{');
    SplitJoin(items, ',');
    assert last[..|target|] == target;
  }

  // Running the workflows

  /** `compare`: strict in both directions. */
  function Compare(comp: Comparator, threshold: int, value: int): (holds: bool)
    ensures comp == LessThan ==> (holds <==> value < threshold)
    ensures comp == GreaterThan ==> (holds <==> value > threshold)
  {
    match comp
    case LessThan => value < threshold
    case GreaterThan => value > threshold
  }

  /** A value equal to the threshold never matches, and the two comparators
      mirror each other. */
  lemma CompareStrict(threshold: int, value: int)
    ensures !Compare(LessThan, threshold, threshold) && !Compare(GreaterThan, threshold, threshold)
    ensures Compare(LessThan, threshold, value) == Compare(GreaterThan, value, threshold)
    ensures value != threshold ==> Compare(LessThan, threshold, value) != Compare(GreaterThan, threshold, value)
  {
  }

  /** The `switch` on the rule's parameter name in `runWorkflow`. */
  function ParamValue(p: Part, name: string): (r: Result<int>)
    ensures r.Ok? <==> name in {"x", "m", "a", "s"}
    ensures r.Fatal? ==> r.message == BadParam + name
  {
    if name == "x" then Ok(p.x)
    else if name == "m" then Ok(p.m)
    else if name == "a" then Ok(p.a)
    else if name == "s" then Ok(p.s)
    else Fatal(BadParam + name)
  }

  /** The workflow a name leads to: a missing one has no rules, as a Go map
      lookup yields the zero value. */
  function StepsOf(flows: map<string, Workflow>, name: string): seq<Step> {
    if name in flows then flows[name].steps else []
  }

  /** `runWorkflow` on the workflow `entry`. */
  function RunWorkflow(p: Part, flows: map<string, Workflow>, entry: string, fuel: nat): (r: Result<bool>)
    ensures entry !in flows ==> r == Fatal(EndReached)
    decreases fuel, 2, 0
  {
    RunSteps(p, flows, StepsOf(flows, entry), 0, fuel)
  }

  /** The loop of `runWorkflow` from rule `i` on. */
  function RunSteps(p: Part, flows: map<string, Workflow>, steps: seq<Step>, i: nat, fuel: nat): (r: Result<bool>)
    requires i <= |steps|
    ensures (forall k :: i <= k < |steps| ==> !Decides(p, steps[k])) ==> r == Fatal(EndReached)
    ensures r.Ok? ==> exists k :: i <= k < |steps| && Decides(p, steps[k])
    decreases fuel, 1, |steps| - i
  {
    if i == |steps| then Fatal(EndReached)
    else
      var st := steps[i];
      if st.isGoTo then GoTo(p, flows, st.target, fuel)
      else
        var v :- ParamValue(p, st.paramName);
        if Compare(st.comp, st.value, v) then GoTo(p, flows, st.target, fuel)
        else RunSteps(p, flows, steps, i + 1, fuel)
  }

  /** Following a rule's target: "A" accepts, "R" rejects, anything else runs
      the workflow of that name. */
  function GoTo(p: Part, flows: map<string, Workflow>, target: string, fuel: nat): (r: Result<bool>)
    ensures target == "A" ==> r == Ok(true)
    ensures target == "R" ==> r == Ok(false)
    decreases fuel, 0, 0
  {
    if target == "A" then Ok(true)
    else if target == "R" then Ok(false)
    else if fuel == 0 then Fatal(OutOfFuel)
    else RunWorkflow(p, flows, target, fuel - 1)
  }

  /** Whether a rule ends the scan: the final rule, a rule on an unknown
      parameter, or a rule whose comparison holds. */
  predicate Decides(p: Part, st: Step) {
    st.isGoTo || ParamValue(p, st.paramName).Fatal? ||
    Compare(st.comp, st.value, ParamValue(p, st.paramName).value)
  }

  /** The effect of the rule that ends the scan. */
  function Decision(p: Part, flows: map<string, Workflow>, st: Step, fuel: nat): Result<bool> {
    if !st.isGoTo && ParamValue(p, st.paramName).Fatal? then Fatal(ParamValue(p, st.paramName).message)
    else GoTo(p, flows, st.target, fuel)
  }

  /** The rules are tried in order: the first that decides determines the
      outcome; when none does, the end of the workflow is reached. */
  lemma {:induction false} FirstDecides(p: Part, flows: map<string, Workflow>, steps: seq<Step>, i: nat, fuel: nat)
    requires i <= |steps|
    ensures (forall k :: i <= k < |steps| ==> !Decides(p, steps[k])) ==> RunSteps(p, flows, steps, i, fuel) == Fatal(EndReached)
    ensures forall k :: i <= k < |steps| && Decides(p, steps[k]) && (forall j :: i <= j < k ==> !Decides(p, steps[j])) ==>
      RunSteps(p, flows, steps, i, fuel) == Decision(p, flows, steps[k], fuel)
    decreases |steps| - i
  {
    if i < |steps| {
      FirstDecides(p, flows, steps, i + 1, fuel);
      if Decides(p, steps[i]) {
        assert RunSteps(p, flows, steps, i, fuel) == Decision(p, flows, steps[i], fuel);
      } else {
        assert RunSteps(p, flows, steps, i, fuel) == RunSteps(p, flows, steps, i + 1, fuel);
      }
    }
  }

  /** More fuel changes nothing about a run that did not run out. */
  lemma {:induction false} RunMoreFuel(p: Part, flows: map<string, Workflow>, entry: string, fuel: nat)
    requires RunWorkflow(p, flows, entry, fuel) != Fatal(OutOfFuel)
    ensures RunWorkflow(p, flows, entry, fuel + 1) == RunWorkflow(p, flows, entry, fuel)
    decreases fuel, 2, 0
  {
    StepsMoreFuel(p, flows, StepsOf(flows, entry), 0, fuel);
  }

  lemma {:induction false} StepsMoreFuel(p: Part, flows: map<string, Workflow>, steps: seq<Step>, i: nat, fuel: nat)
    requires i <= |steps| && RunSteps(p, flows, steps, i, fuel) != Fatal(OutOfFuel)
    ensures RunSteps(p, flows, steps, i, fuel + 1) == RunSteps(p, flows, steps, i, fuel)
    decreases fuel, 1, |steps| - i
  {
    if i < |steps| {
      var st := steps[i];
      if st.isGoTo {
        GoToMoreFuel(p, flows, st.target, fuel);
      } else if ParamValue(p, st.paramName).Ok? {
        if Compare(st.comp, st.value, ParamValue(p, st.paramName).value) {
          GoToMoreFuel(p, flows, st.target, fuel);
        } else {
          StepsMoreFuel(p, flows, steps, i + 1, fuel);
        }
      }
    }
  }

  lemma {:induction false} GoToMoreFuel(p: Part, flows: map<string, Workflow>, target: string, fuel: nat)
    requires GoTo(p, flows, target, fuel) != Fatal(OutOfFuel)
    ensures GoTo(p, flows, target, fuel + 1) == GoTo(p, flows, target, fuel)
    decreases fuel, 0, 0
  {
    if target != "A" && target != "R" && fuel > 0 {
      RunMoreFuel(p, flows, target, fuel - 1);
    }
  }

  // Parts and ratings

  /** The ratings of a part: the value after '=' in each comma-separated
      component, by position; components past the fourth are split but
      unused, and missing ones leave the rating 0. */
  function AsPart(line: string, asInt: string -> int): (r: Result<Part>)
    ensures r.Fatal? <==> exists k :: 0 <= k < |SplitOn(line, ",")| && !HasRating(SplitOn(line, ",")[k])
    ensures r.Fatal? <==> exists k :: 0 <= k < |SplitOn(line, ",")| && '=' !in SplitOn(line, ",")[k]
    ensures r.Fatal? ==> r.message == IndexOutOfRange
    ensures r.Ok? ==> var cs := SplitOn(line, ",");
      r.value.x == (if |cs| > 0 then asInt(RatingText(cs[0])) else 0) &&
      r.value.m == (if |cs| > 1 then asInt(RatingText(cs[1])) else 0) &&
      r.value.a == (if |cs| > 2 then asInt(RatingText(cs[2])) else 0) &&
      r.value.s == (if |cs| > 3 then asInt(RatingText(cs[3])) else 0)
  {
    var cs := SplitOn(line, ",");
    assert forall k :: 0 <= k < |cs| ==> (HasRating(cs[k]) <==> '=' in cs[k]) by {
      forall k | 0 <= k < |cs| ensures HasRating(cs[k]) <==> '=' in cs[k] {
        HasRatingMeaning(cs[k]);
      }
    }
    var r := Assign(cs, 0, Part(0, 0, 0, 0), asInt);
    assert r.Fatal? <==> exists k :: 0 <= k < |cs| && !HasRating(cs[k]);
    assert r.Fatal? <==> exists k :: 0 <= k < |cs| && '=' !in cs[k];
    assert r.Ok? ==> r.value.x == (if |cs| > 0 then asInt(RatingText(cs[0])) else 0);
    assert r.Ok? ==> r.value.m == (if |cs| > 1 then asInt(RatingText(cs[1])) else 0);
    assert r.Ok? ==> r.value.a == (if |cs| > 2 then asInt(RatingText(cs[2])) else 0);
    assert r.Ok? ==> r.value.s == (if |cs| > 3 then asInt(RatingText(cs[3])) else 0);
    r
  }

  /** `strings.Split(comp, "=")[1]`, when there is such a piece. */
  predicate HasRating(component: string) {
    |SplitOn(component, "=")| >= 2
  }

  /** A component has a rating exactly when it holds an '='. */
  lemma HasRatingMeaning(component: string)
    ensures HasRating(component) <==> '=' in component
  {
    assert "=" == ['='];
    SplitOnFirst(component, '=');
  }

  function RatingText(component: string): string
    requires HasRating(component)
  {
    SplitOn(component, "=")[1]
  }

  /** The loop of `asPart` from component `i` on. */
  function Assign(components: seq<string>, i: nat, p: Part, asInt: string -> int): (r: Result<Part>)
    requires i <= |components|
    ensures r.Fatal? <==> exists k :: i <= k < |components| && !HasRating(components[k])
    ensures r.Fatal? ==> r.message == IndexOutOfRange
    ensures r.Ok? ==> r.value.x == if i == 0 && |components| > 0 then asInt(RatingText(components[0])) else p.x
    ensures r.Ok? ==> r.value.m == if i <= 1 && |components| > 1 then asInt(RatingText(components[1])) else p.m
    ensures r.Ok? ==> r.value.a == if i <= 2 && |components| > 2 then asInt(RatingText(components[2])) else p.a
    ensures r.Ok? ==> r.value.s == if i <= 3 && |components| > 3 then asInt(RatingText(components[3])) else p.s
    decreases |components| - i
  {
    if i == |components| then Ok(p)
    else if !HasRating(components[i]) then Fatal(IndexOutOfRange)
    else
      var v := RatingText(components[i]);
      var next :=
        if i == 0 then p.(x := asInt(v))
        else if i == 1 then p.(m := asInt(v))
        else if i == 2 then p.(a := asInt(v))
        else if i == 3 then p.(s := asInt(v))
        else p;
      Assign(components, i + 1, next, asInt)
  }

  /** "x=..,m=..,a=..,s=.." reads as the part with those ratings. */
  lemma AsPartOf(x: string, m: string, a: string, s: string, asInt: string -> int)
    requires forall t :: t in [x, m, a, s] ==> ',' !in t && '=' !in t
    ensures AsPart("x=" + x + ",m=" + m + ",a=" + a + ",s=" + s, asInt) ==
      Ok(Part(asInt(x), asInt(m), asInt(a), asInt(s)))
  {
    var c0 := RatingOf('x', x);
    var c1 := RatingOf('m', m);
    var c2 := RatingOf('a', a);
    var c3 := RatingOf('s', s);
    var cs := PartLine(x, m, a, s);
    assert forall k :: 0 <= k < |cs| ==> ',' !in cs[k] && HasRating(cs[k]);
    SplitJoin(cs, ',');
    var r := Assign(cs, 0, Part(0, 0, 0, 0), asInt);
    assert r.Ok?;
  }

  /** The four components of a part line, joined with commas. */
  lemma PartLine(x: string, m: string, a: string, s: string) returns (cs: seq<string>)
    ensures cs == [['x', '='] + x, ['m', '='] + m, ['a', '='] + a, ['s', '='] + s]
    ensures Join(cs, ",") == "x=" + x + ",m=" + m + ",a=" + a + ",s=" + s
  {
    var c0, c1, c2, c3 := ['x', '='] + x, ['m', '='] + m, ['a', '='] + a, ['s', '='] + s;
    cs := [c0, c1, c2, c3];
    assert cs[1..] == [c1, c2, c3] && [c1, c2, c3][1..] == [c2, c3] && [c2, c3][1..] == [c3];
    assert Join([c2, c3], ",") == c2 + "," + c3;
    assert Join([c1, c2, c3], ",") == c1 + "," + (c2 + "," + c3);
    var line := Join(cs, ",");
    assert line == c0 + "," + (c1 + "," + (c2 + "," + c3));
    assert ",m=" == "," + "m=" && ",a=" == "," + "a=" && ",s=" == "," + "s=";
  }

  /** The component "n=v" of a part line. */
  lemma RatingOf(name: char, v: string) returns (c: string)
    requires name != '=' && name != ',' && '=' !in v && ',' !in v
    ensures c == [name, '='] + v && ',' !in c
    ensures HasRating(c) && RatingText(c) == v
  {
    c := [name, '='] + v;
    assert forall i :: 0 <= i < |c| ==> c[i] == if i == 0 then name else if i == 1 then '=' else v[i - 2];
    assert c == [name] + ['='] + v;
    FirstPiece([name], '=', v);
    SplitOnFirst(v, '=');
  }

  function Total(p: Part): int {
    p.x + p.m + p.a + p.s
  }

  /** `getRating`: strip the braces, read the part and run it from "in"; an
      accepted part counts its four ratings, a rejected one nothing. */
  function GetRating(line: string, flows: map<string, Workflow>, asInt: string -> int, fuel: nat): (r: Result<int>)
    ensures |line| < 2 ==> r == Fatal(SliceOutOfRange)
    ensures r.Ok? <==> (|line| >= 2 && AsPart(line[1..|line| - 1], asInt).Ok? &&
      RunWorkflow(AsPart(line[1..|line| - 1], asInt).value, flows, "in", fuel).Ok?)
    ensures r.Ok? && |line| >= 2 && AsPart(line[1..|line| - 1], asInt).Ok? ==>
      var p := AsPart(line[1..|line| - 1], asInt).value;
      RunWorkflow(p, flows, "in", fuel).Ok? &&
      r.value == if RunWorkflow(p, flows, "in", fuel).value then Total(p) else 0
  {
    if |line| < 2 then Fatal(SliceOutOfRange)
    else
      var p :- AsPart(line[1..|line| - 1], asInt);
      var accepted :- RunWorkflow(p, flows, "in", fuel);
      Ok(if accepted then Total(p) else 0)
  }

  // The input

  /** The map `main` builds: each workflow under its name, a later workflow
      replacing an earlier one of the same name. */
  function Index(ws: seq<Workflow>): (flows: map<string, Workflow>)
    ensures forall name :: name in flows <==> exists k :: 0 <= k < |ws| && ws[k].name == name
    decreases |ws|
  {
    if |ws| == 0 then map[]
    else
      var before := Index(ws[..|ws| - 1]);
      assert forall k :: 0 <= k < |ws| - 1 ==> ws[..|ws| - 1][k] == ws[k];
      before[ws[|ws| - 1].name := ws[|ws| - 1]]
  }

  /** A name maps to the last workflow carrying it. */
  lemma {:induction false} IndexLast(ws: seq<Workflow>, k: nat)
    requires k < |ws| && forall j :: k < j < |ws| ==> ws[j].name != ws[k].name
    ensures ws[k].name in Index(ws) && Index(ws)[ws[k].name] == ws[k]
    decreases |ws|
  {
    if k < |ws| - 1 {
      var before := ws[..|ws| - 1];
      assert before[k] == ws[k];
      assert forall j :: k < j < |before| ==> before[j] == ws[j];
      IndexLast(before, k);
    }
  }

  /** The index of the first empty line from `j` on, or the number of lines. */
  function FirstBlank(lines: seq<string>, j: nat): (b: nat)
    requires j <= |lines|
    ensures j <= b <= |lines|
    ensures forall k :: j <= k < b ==> |lines[k]| > 0
    ensures b < |lines| ==> |lines[b]| == 0
    decreases |lines| - j
  {
    if j == |lines| || |lines[j]| == 0 then j else FirstBlank(lines, j + 1)
  }

  function ParseWorkflows(lines: seq<string>, asInt: string -> int): (r: Result<seq<Workflow>>)
    ensures r.Ok? <==> forall k :: 0 <= k < |lines| ==> ParseWorkflow(lines[k], asInt).Ok?
    ensures r.Ok? ==> |r.value| == |lines| && forall k :: 0 <= k < |lines| ==> r.value[k] == ParseWorkflow(lines[k], asInt).value
    decreases |lines|
  {
    if |lines| == 0 then Ok([])
    else
      var w :- ParseWorkflow(lines[0], asInt);
      var rest :- ParseWorkflows(lines[1..], asInt);
      assert forall k :: 1 <= k < |lines| ==> lines[1..][k - 1] == lines[k];
      Ok([w] + rest)
  }

  /** The rating of a part line with the workflows `flows`. */
  function Rate(flows: map<string, Workflow>, asInt: string -> int, fuel: nat): string -> Result<int> {
    line => GetRating(line, flows, asInt, fuel)
  }

  /** `main`: workflows up to the first empty line, ratings after it. Without
      an empty line the rating loop starts over at the first line, so every
      line is read both as a workflow and as a part. */
  function AcceptedRatings(lines: seq<string>, asInt: string -> int, fuel: nat): (r: Result<int>)
    ensures r.Ok? <==> Workflows(lines, asInt).Ok? && forall k :: PartStart(lines) <= k < |lines| ==>
      Rate(Index(Workflows(lines, asInt).value), asInt, fuel)(lines[k]).Ok?
    ensures r.Ok? ==> r.value == Sum(ParseEach(lines[PartStart(lines)..], Rate(Index(Workflows(lines, asInt).value), asInt, fuel)).value)
  {
    var ws :- Workflows(lines, asInt);
    var rate := Rate(Index(ws), asInt, fuel);
    SumEachFrom(lines, PartStart(lines), rate);
    SumEach(lines[PartStart(lines)..], rate)
  }

  /** The workflows `main` reads: the lines before the first empty one. */
  function Workflows(lines: seq<string>, asInt: string -> int): Result<seq<Workflow>> {
    ParseWorkflows(lines[..FirstBlank(lines, 0)], asInt)
  }

  /** The first line the rating loop reads: the one after the first empty
      line, or line 0 when there is none. */
  function PartStart(lines: seq<string>): nat {
    var b := FirstBlank(lines, 0);
    if b < |lines| then b + 1 else 0
  }

  /** Without an empty line, the rating loop reads every line, workflows
      included. */
  lemma NoBlankLine(lines: seq<string>, asInt: string -> int, fuel: nat)
    requires forall k :: 0 <= k < |lines| ==> |lines[k]| > 0
    requires ParseWorkflows(lines, asInt).Ok?
    ensures AcceptedRatings(lines, asInt, fuel) == SumEach(lines, Rate(Index(ParseWorkflows(lines, asInt).value), asInt, fuel))
  {
    assert FirstBlank(lines, 0) == |lines|;
    assert lines[..|lines|] == lines;
    assert lines[0..] == lines;
  }
}
