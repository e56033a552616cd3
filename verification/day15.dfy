/** Day 15: Lens Library. The HASH algorithm turns a string into a box number
    from 0 to 255; part 1 adds up the hashes of the comma-separated steps of
    the single input line. Part 2 reads each step as an operation on the box
    its label hashes to: "label=n" puts a lens of focal length n there,
    replacing a lens with the same label in place or joining the end of the
    box; "label-" takes the lens with that label out. The answer is the
    focusing power of the final arrangement (15/part1/part1.go, 15/part2.go). */
module Day15 {
  import opened Outcome
  import opened Text

  // The HASH algorithm

  /** The loop of `sequenceHash` from the running value `h` on: each character's
      code is added, the sum multiplied by 17 and reduced modulo 256. */
  function HashFrom(h: nat, s: string): (r: nat)
    ensures |s| > 0 || h < 256 ==> r < 256
    decreases |s|
  {
    if |s| == 0 then h else HashFrom((h + s[0] as int) * 17 % 256, s[1..])
  }

  /** `sequenceHash`. */
  function Hash(s: string): (h: nat)
    ensures h < 256
    ensures s == "" ==> h == 0
  {
    HashFrom(0, s)
  }

  lemma {:induction false} HashFromAppend(h: nat, s: string, c: char)
    ensures HashFrom(h, s + [c]) == (HashFrom(h, s) + c as int) * 17 % 256
    decreases |s|
  {
    if |s| > 0 {
      assert (s + [c])[1..] == s[1..] + [c];
      HashFromAppend((h + s[0] as int) * 17 % 256, s[1..], c);
    }
  }

  /** The hash of a string with one more character is computed from the hash
      of the shorter string alone. */
  lemma HashAppend(s: string, c: char)
    ensures Hash(s + [c]) == (Hash(s) + c as int) * 17 % 256
  {
    HashFromAppend(0, s, c);
  }

  /** Hashing `a + b` is hashing `b` starting from the hash of `a`. */
  lemma {:induction false} HashFromConcat(h: nat, a: string, b: string)
    ensures HashFrom(h, a + b) == HashFrom(HashFrom(h, a), b)
    decreases |a|
  {
    if |a| > 0 {
      assert (a + b)[1..] == a[1..] + b;
      HashFromConcat((h + a[0] as int) * 17 % 256, a[1..], b);
    } else {
      assert a + b == b;
    }
  }

  /** Characters whose codes agree modulo 256 hash alike. */
  lemma {:induction false} HashResidues(h: nat, s: string, t: string)
    requires |s| == |t|
    requires forall i :: 0 <= i < |s| ==> s[i] as int % 256 == t[i] as int % 256
    ensures HashFrom(h, s) == HashFrom(h, t)
    decreases |s|
  {
    if |s| > 0 {
      var a, b := s[0] as int, t[0] as int;
      assert (h + a) % 256 == (h + b) % 256;
      ModTimes(h + a, h + b, 17);
      HashResidues((h + a) * 17 % 256, s[1..], t[1..]);
    }
  }

  lemma ModTimes(x: int, y: int, m: int)
    requires x % 256 == y % 256
    ensures x * m % 256 == y * m % 256
  {
    var q := x / 256 - y / 256;
    assert x == y + q * 256;
    assert x * m == y * m + (q * m) * 256;
  }

  /** One step of the hash loop, with the new running value given. */
  lemma HashStep(h: nat, c: char, rest: string, next: nat)
    requires next == (h + c as int) * 17 % 256
    ensures HashFrom(h, [c] + rest) == HashFrom(next, rest)
  {
    assert ([c] + rest)[1..] == rest;
  }

  /** The puzzle's worked hash of "HASH", step by step. */
  lemma HashExample()
    ensures Hash("HASH") == 52
  {
    var s3: string := ['H'];
    var s2 := ['S'] + s3;
    var s1 := ['A'] + s2;
    var s0 := ['H'] + s1;
    HashStep(172, 'H', [], 52);
    assert s3 == ['H'] + [];
    HashStep(153, 'S', s3, 172);
    HashStep(200, 'A', s2, 153);
    HashStep(0, 'H', s1, 200);
    assert s0 == "HASH";
  }

  // Part 1

  /** The hashes of the steps, added up in order. */
  function HashSum(steps: seq<string>): (n: nat)
    ensures n <= 255 * |steps|
    decreases |steps|
  {
    if |steps| == 0 then 0 else HashSum(steps[..|steps| - 1]) + Hash(steps[|steps| - 1])
  }

  /** The hash of every step, in order. */
  function Hashes(steps: seq<string>): (hs: seq<int>)
    ensures |hs| == |steps| && forall k :: 0 <= k < |steps| ==> hs[k] == Hash(steps[k])
  {
    seq(|steps|, k requires 0 <= k < |steps| => Hash(steps[k]))
  }

  /** The loop adds up the hashes of the steps. */
  lemma {:induction false} HashSumIsSum(steps: seq<string>)
    ensures HashSum(steps) == Sum(Hashes(steps))
    decreases |steps|
  {
    if |steps| > 0 {
      var init := steps[..|steps| - 1];
      HashSumIsSum(init);
      assert Hashes(steps)[..|steps| - 1] == Hashes(init);
    }
  }

  const BadInput := "Unexpected input file format."

  /** Part 1's `main`: exactly one line is expected, and the answer is the sum
      of the hashes of its comma-separated steps. */
  function SumOfHashes(lines: seq<string>): (r: Result<nat>)
    ensures r.Ok? <==> |lines| == 1
    ensures r.Ok? ==> r.value == Sum(Hashes(SplitOn(lines[0], ",")))
    ensures r.Ok? ==> r.value <= 255 * (CountChar(lines[0], ',') + 1)
  {
    if |lines| != 1 then Fatal(BadInput)
    else
      SplitOnChar(lines[0], ',');
      HashSumIsSum(SplitOn(lines[0], ","));
      Ok(HashSum(SplitOn(lines[0], ",")))
  }

  /** Two steps: the answer is the sum of their hashes. */
  lemma SumOfTwoSteps(a: string, b: string)
    requires ',' !in a && ',' !in b
    ensures SumOfHashes([a + "," + b]) == Ok(Hash(a) + Hash(b))
  {
    assert a + "," + b == a + [','] + b;
    FirstPiece(a, ',', b);
    SplitOnFirst(b, ',');
    var parts := SplitOn(a + "," + b, ",");
    assert parts == [a, b];
    assert parts[..1] == [a] && [a][..0] == [];
    assert HashSum(parts) == HashSum([a]) + Hash(b);
  }

  // Part 2: operations

  datatype OpType = Replace | Remove

  /** A step: the label (`name`), the kind of operation and the focal length
      (-1 for a removal). A lens in a box is the operation that put it there. */
  datatype Operation = Operation(name: string, opType: OpType, focalLength: int)

  const BadValue := "Error when parsing value: "
  const BadFormat := "Unexpected operation format: "

  /** `parseOperations` for one step: with an '=' the label is the text before
      the first '=' and the focal length is read from the text between the
      first and a second '='; otherwise a step ending in '-' removes the label
      before its first '-'; anything else panics, as does a bad number. */
  function ParseOperation(s: string): (r: Result<Operation>)
    ensures r.Ok? && r.value.opType == Replace ==>
      '=' in s && '=' !in r.value.name && IsPrefix(r.value.name + "=", s)
    ensures r.Ok? && r.value.opType == Remove ==>
      '=' !in s && HasSuffix(s, "-") && '-' !in r.value.name && IsPrefix(r.value.name + "-", s) &&
      r.value.focalLength == -1
    ensures '=' in s ==> (|SplitOn(s, "=")| >= 2 &&
      (r.Ok? <==> ParseInt(SplitOn(s, "=")[1]).Ok?) &&
      (r.Ok? ==> r.value.focalLength == ParseInt(SplitOn(s, "=")[1]).value))
    ensures '=' !in s ==> (r.Ok? <==> HasSuffix(s, "-"))
  {
    ContainsChar(s, '=');
    if Contains(s, "=") then
      SplitOnFirst(s, '=');
      var values := SplitOn(s, "=");
      var name := values[0];
      assert (name + "=") == s[..|name| + 1];
      match ParseInt(values[1])
      case Ok(n) => Ok(Operation(name, Replace, n))
      case Fatal(_) => Fatal(BadValue + s)
    else if HasSuffix(s, "-") then
      SplitOnFirst(s, '-');
      var name := SplitOn(s, "-")[0];
      assert (name + "-") == s[..|name| + 1];
      Ok(Operation(name, Remove, -1))
    else Fatal(BadFormat + s)
  }

  /** A step with '=' reads from the first two pieces around '='. */
  lemma ParsePieces(s: string, pieces: seq<string>, n: int)
    requires '=' in s && pieces == SplitOn(s, "=") && |pieces| >= 2 && ParseInt(pieces[1]) == Ok(n)
    ensures ParseOperation(s) == Ok(Operation(pieces[0], Replace, n))
  {
    ContainsChar(s, '=');
  }

  /** "label=n" reads as putting a lens of focal length n under the label. */
  lemma ParseReplace(name: string, digits: string)
    requires '=' !in name && |digits| > 0 && AllDigits(digits) && DecimalValue(digits) <= MaxInt64
    ensures ParseOperation(name + "=" + digits) == Ok(Operation(name, Replace, DecimalValue(digits)))
  {
    var s := name + "=" + digits;
    ReplacePieces(name, digits);
    ParseDigits(digits);
    assert s[|name|] == '=';
    ParsePieces(s, [name, digits], DecimalValue(digits));
  }

  lemma ReplacePieces(name: string, digits: string)
    requires '=' !in name && AllDigits(digits)
    ensures SplitOn(name + "=" + digits, "=") == [name, digits]
  {
    assert name + "=" + digits == name + ['='] + digits;
    FirstPiece(name, '=', digits);
    assert '=' !in digits;
    SplitOnFirst(digits, '=');
  }

  /** Text after a second '=' is ignored. */
  lemma ParseSecondEquals(name: string, digits: string, rest: string)
    requires '=' !in name && |digits| > 0 && AllDigits(digits) && DecimalValue(digits) <= MaxInt64
    ensures ParseOperation(name + "=" + digits + "=" + rest) == Ok(Operation(name, Replace, DecimalValue(digits)))
  {
    var s := name + "=" + digits + "=" + rest;
    var pieces := SecondEqualsPieces(name, digits, rest);
    ParseDigits(digits);
    assert s[|name|] == '=';
    ParsePieces(s, pieces, DecimalValue(digits));
  }

  lemma SecondEqualsPieces(name: string, digits: string, rest: string) returns (pieces: seq<string>)
    requires '=' !in name && AllDigits(digits)
    ensures pieces == SplitOn(name + "=" + digits + "=" + rest, "=")
    ensures |pieces| >= 2 && pieces[0] == name && pieces[1] == digits
  {
    var tail := digits + ['='] + rest;
    assert name + "=" + digits + "=" + rest == name + ['='] + tail;
    FirstPiece(name, '=', tail);
    assert '=' !in digits;
    FirstPiece(digits, '=', rest);
    pieces := [name] + ([digits] + SplitOn(rest, "="));
  }

  /** "label-" reads as taking the label's lens out. */
  lemma ParseRemove(name: string)
    requires '=' !in name && '-' !in name
    ensures ParseOperation(name + "-") == Ok(Operation(name, Remove, -1))
  {
    var s := name + "-";
    FirstPiece(name, '-', "");
    assert s == name + ['-'] + "";
    ContainsChar(s, '=');
  }

  /** A step without '=' or a final '-', or with no number after the '=',
      panics. */
  lemma ParseRejects()
    ensures ParseOperation("ab").Fatal? && ParseOperation("ab=").Fatal?
  {
    ContainsChar("ab", '=');
    ContainsChar("ab=", '=');
    FirstPiece("ab", '=', "");
    assert "ab=" == "ab" + ['='] + "";
  }

  /** `parseOperations`: the steps read in order; the first step that does not
      read panics with its message. */
  function ParseOperations(steps: seq<string>): (r: Result<seq<Operation>>)
    ensures r.Ok? <==> forall k :: 0 <= k < |steps| ==> ParseOperation(steps[k]).Ok?
    ensures r.Ok? ==> (|r.value| == |steps| &&
      forall k :: 0 <= k < |steps| ==> r.value[k] == ParseOperation(steps[k]).value)
    ensures r.Fatal? ==> exists k :: (0 <= k < |steps| && ParseOperation(steps[k]).Fatal? &&
      r.message == ParseOperation(steps[k]).message &&
      forall j :: 0 <= j < k ==> ParseOperation(steps[j]).Ok?)
    decreases |steps|
  {
    if |steps| == 0 then Ok([])
    else
      var first := ParseOperation(steps[0]);
      if first.Fatal? then Fatal(first.message)
      else
        var rest := ParseOperations(steps[1..]);
        if rest.Fatal? then
          assert forall k :: 1 <= k < |steps| ==> steps[1..][k - 1] == steps[k];
          Fatal(rest.message)
        else Ok([first.value] + rest.value)
  }

  // Part 2: boxes

  type Box = seq<Operation>

  /** The search loop shared by `removeLensFromBox` and `replaceLensInBox`: the
      index of the first lens with the label, or -1. */
  function FindLens(name: string, box: Box): (k: int)
    ensures -1 <= k < |box|
    ensures k == -1 <==> forall i :: 0 <= i < |box| ==> box[i].name != name
    ensures k >= 0 ==> box[k].name == name && forall i :: 0 <= i < k ==> box[i].name != name
    decreases |box|
  {
    if |box| == 0 then -1
    else if box[0].name == name then 0
    else
      var k := FindLens(name, box[1..]);
      if k < 0 then -1 else k + 1
  }

  /** `removeLensFromBox`: the box without its first lens with the label, the
      others kept in order; the box itself when there is none. */
  function RemoveLens(name: string, box: Box): (r: Box)
    ensures FindLens(name, box) == -1 ==> r == box
    ensures FindLens(name, box) >= 0 ==>
      var k := FindLens(name, box);
      |r| == |box| - 1 && (forall i :: 0 <= i < k ==> r[i] == box[i]) &&
      (forall i :: k <= i < |r| ==> r[i] == box[i + 1])
  {
    var k := FindLens(name, box);
    if k == -1 then box
    else if k == 0 then box[1..]
    else if k == |box| - 1 then box[..|box| - 1]
    else box[..k] + box[k + 1..]
  }

  /** `replaceLensInBox`: the first lens with the label is replaced in place;
      without one, the new lens joins the end of the box. */
  function ReplaceLens(op: Operation, box: Box): (r: Box)
    ensures FindLens(op.name, box) == -1 ==> r == box + [op]
    ensures FindLens(op.name, box) >= 0 ==>
      |r| == |box| && r[FindLens(op.name, box)] == op &&
      forall i :: 0 <= i < |box| && i != FindLens(op.name, box) ==> r[i] == box[i]
  {
    var k := FindLens(op.name, box);
    if k == -1 then box + [op] else box[k := op]
  }

  /** The lens under a label in a box, if any. */
  function Lookup(box: Box, name: string): Option<Operation> {
    var k := FindLens(name, box);
    if k < 0 then None else Some(box[k])
  }

  predicate DistinctLabels(box: Box) {
    forall i, j :: 0 <= i < j < |box| ==> box[i].name != box[j].name
  }

  /** The first lens with a label, identified by its position. */
  lemma FindLensAt(name: string, box: Box, k: int)
    requires 0 <= k < |box| && box[k].name == name
    requires forall i :: 0 <= i < k ==> box[i].name != name
    ensures FindLens(name, box) == k
  {
  }

  /** Removing a label's lens takes that label out of a box whose labels are
      distinct and leaves every other label's lens as it was. */
  lemma RemoveLookup(name: string, box: Box, other: string)
    requires DistinctLabels(box)
    ensures DistinctLabels(RemoveLens(name, box))
    ensures Lookup(RemoveLens(name, box), other) == if other == name then None else Lookup(box, other)
  {
    var r := RemoveLens(name, box);
    var k := FindLens(name, box);
    if k >= 0 {
      var m := FindLens(other, box);
      if other == name {
        assert forall i :: 0 <= i < |r| ==> r[i].name != name by {
          forall i | 0 <= i < |r|
            ensures r[i].name != name
          {
            if i >= k {
              assert r[i] == box[i + 1];
            }
          }
        }
      } else if m >= 0 && m < k {
        FindLensAt(other, r, m);
      } else if m > k {
        assert r[m - 1] == box[m];
        FindLensAt(other, r, m - 1);
      } else {
        assert forall i :: 0 <= i < |r| ==> r[i].name != other by {
          forall i | 0 <= i < |r|
            ensures r[i].name != other
          {
            if i >= k {
              assert r[i] == box[i + 1];
            }
          }
        }
      }
    }
  }

  /** Putting a lens in under its label makes it the label's lens, keeps
      every other label's lens, and keeps the labels distinct. */
  lemma ReplaceLookup(op: Operation, box: Box, other: string)
    ensures Lookup(ReplaceLens(op, box), other) == if other == op.name then Some(op) else Lookup(box, other)
    ensures DistinctLabels(box) ==> DistinctLabels(ReplaceLens(op, box))
  {
    ReplaceDistinct(op, box);
    var r := ReplaceLens(op, box);
    var k := FindLens(op.name, box);
    var m := FindLens(other, box);
    if k == -1 {
      if other == op.name {
        FindLensAt(other, r, |box|);
      } else if m >= 0 {
        FindLensAt(other, r, m);
      }
    } else {
      if other == op.name {
        FindLensAt(other, r, k);
      } else if m >= 0 {
        FindLensAt(other, r, m);
      }
    }
  }

  lemma ReplaceDistinct(op: Operation, box: Box)
    ensures DistinctLabels(box) ==> DistinctLabels(ReplaceLens(op, box))
  {
    var r := ReplaceLens(op, box);
    if DistinctLabels(box) && FindLens(op.name, box) == -1 {
      forall other | other != op.name && FindLens(other, box) >= 0
        ensures FindLens(other, r) == FindLens(other, box)
      {
        FindLensAt(other, r, FindLens(other, box));
      }
    }
  }

  // Part 2: the arrangement

  const BoxCount: nat := 256

  function EmptyBoxes(): (boxes: seq<Box>)
    ensures |boxes| == BoxCount && forall b :: 0 <= b < BoxCount ==> boxes[b] == []
  {
    seq(BoxCount, _ => [])
  }

  /** One step of `process`: only the box the label hashes to changes. */
  function Apply(boxes: seq<Box>, op: Operation): (r: seq<Box>)
    requires |boxes| == BoxCount
    ensures |r| == BoxCount
    ensures forall b :: 0 <= b < BoxCount && b != Hash(op.name) ==> r[b] == boxes[b]
  {
    var b := Hash(op.name);
    var box := boxes[b];
    boxes[b := if op.opType == Remove then RemoveLens(op.name, box) else ReplaceLens(op, box)]
  }

  /** `process`: the operations applied in order to 256 empty boxes. */
  function Process(ops: seq<Operation>): (boxes: seq<Box>)
    ensures |boxes| == BoxCount
    decreases |ops|
  {
    if |ops| == 0 then EmptyBoxes() else Apply(Process(ops[..|ops| - 1]), ops[|ops| - 1])
  }

  /** Every lens sits in the box its label hashes to, and no box holds a label
      twice. */
  predicate Filed(boxes: seq<Box>) {
    |boxes| == BoxCount &&
    (forall b, i :: 0 <= b < BoxCount && 0 <= i < |boxes[b]| ==> Hash(boxes[b][i].name) == b) &&
    (forall b :: 0 <= b < BoxCount ==> DistinctLabels(boxes[b]))
  }

  /** Every operation keeps the boxes filed. */
  lemma ApplyFiled(boxes: seq<Box>, op: Operation)
    requires Filed(boxes)
    ensures Filed(Apply(boxes, op))
  {
    var h := Hash(op.name);
    var box := boxes[h];
    var nb := if op.opType == Remove then RemoveLens(op.name, box) else ReplaceLens(op, box);
    if op.opType == Remove {
      RemoveFiled(op.name, box, h);
    } else {
      ReplaceFiled(op, box);
    }
    assert Apply(boxes, op) == boxes[h := nb];
    RefiledBox(boxes, h, nb);
  }

  /** Putting a filed box back under its own number keeps the boxes filed. */
  lemma RefiledBox(boxes: seq<Box>, h: nat, nb: Box)
    requires Filed(boxes) && h < BoxCount
    requires DistinctLabels(nb) && forall i :: 0 <= i < |nb| ==> Hash(nb[i].name) == h
    ensures Filed(boxes[h := nb])
  {
  }

  /** Replacing keeps a box filed under the hash of the new lens's label. */
  lemma ReplaceFiled(op: Operation, box: Box)
    requires DistinctLabels(box) && forall i :: 0 <= i < |box| ==> Hash(box[i].name) == Hash(op.name)
    ensures var r := ReplaceLens(op, box);
      DistinctLabels(r) && forall i :: 0 <= i < |r| ==> Hash(r[i].name) == Hash(op.name)
  {
    ReplaceLookup(op, box, op.name);
  }

  /** Removing keeps every lens of a box filed under the box's number. */
  lemma RemoveFiled(name: string, box: Box, h: nat)
    requires DistinctLabels(box) && forall i :: 0 <= i < |box| ==> Hash(box[i].name) == h
    ensures var r := RemoveLens(name, box);
      DistinctLabels(r) && forall i :: 0 <= i < |r| ==> Hash(r[i].name) == h
  {
    RemoveLookup(name, box, name);
    var r := RemoveLens(name, box);
    var k := FindLens(name, box);
    forall i | 0 <= i < |r|
      ensures Hash(r[i].name) == h
    {
      if k >= 0 && i >= k {
        assert r[i] == box[i + 1];
      }
    }
  }

  lemma {:induction false} ProcessFiled(ops: seq<Operation>)
    ensures Filed(Process(ops))
    decreases |ops|
  {
    if |ops| > 0 {
      ProcessFiled(ops[..|ops| - 1]);
      ApplyFiled(Process(ops[..|ops| - 1]), ops[|ops| - 1]);
    }
  }

  /** The last operation on a label. */
  function LastOp(ops: seq<Operation>, name: string): (r: Option<Operation>)
    ensures r.None? <==> forall k :: 0 <= k < |ops| ==> ops[k].name != name
    ensures r.Some? ==> r.value.name == name
    decreases |ops|
  {
    if |ops| == 0 then None
    else if ops[|ops| - 1].name == name then Some(ops[|ops| - 1])
    else
      var r := LastOp(ops[..|ops| - 1], name);
      assert forall k :: 0 <= k < |ops| - 1 ==> ops[..|ops| - 1][k] == ops[k];
      r
  }

  /** The operation at `k` is the last one on its label exactly when no later
      operation has that label. */
  lemma {:induction false} LastOpAt(ops: seq<Operation>, k: nat)
    requires k < |ops|
    ensures LastOp(ops, ops[k].name) == Some(ops[k]) <== forall j :: k < j < |ops| ==> ops[j].name != ops[k].name
    decreases |ops|
  {
    if k < |ops| - 1 && forall j :: k < j < |ops| ==> ops[j].name != ops[k].name {
      var before := ops[..|ops| - 1];
      assert before[k] == ops[k];
      assert forall j :: k < j < |before| ==> before[j] == ops[j];
      LastOpAt(before, k);
    }
  }

  /** What the operations leave under a label: the last lens put in, unless a
      removal came after it. */
  function Final(ops: seq<Operation>, name: string): Option<Operation> {
    match LastOp(ops, name)
    case Some(op) => if op.opType == Replace then Some(op) else None
    case None => None
  }

  /** The arrangement holds, in the box of each label, exactly the lens the
      last operation on that label put in, or none when that operation was a
      removal or there was no operation on the label. */
  lemma {:induction false} ProcessMeaning(ops: seq<Operation>, name: string)
    ensures Lookup(Process(ops)[Hash(name)], name) == Final(ops, name)
    decreases |ops|
  {
    if |ops| > 0 {
      var before := ops[..|ops| - 1];
      var op := ops[|ops| - 1];
      var boxes := Process(before);
      ProcessMeaning(before, name);
      ProcessFiled(before);
      if Hash(op.name) == Hash(name) {
        var box := boxes[Hash(name)];
        if op.opType == Remove {
          RemoveLookup(op.name, box, name);
        } else {
          ReplaceLookup(op, box, name);
        }
      }
    }
  }

  /** Removals alone leave every box empty. */
  lemma {:induction false} RemovalsOnly(ops: seq<Operation>)
    requires forall k :: 0 <= k < |ops| ==> ops[k].opType == Remove
    ensures Process(ops) == EmptyBoxes()
    decreases |ops|
  {
    if |ops| > 0 {
      RemovalsOnly(ops[..|ops| - 1]);
      var op := ops[|ops| - 1];
      assert RemoveLens(op.name, []) == [];
      assert Apply(EmptyBoxes(), op) == EmptyBoxes();
    }
  }

  // Part 2: focusing power

  /** The focusing power of the first `n` lenses of box number `b`. */
  function LensesPower(box: Box, b: nat, n: nat): int
    requires n <= |box|
  {
    if n == 0 then 0 else LensesPower(box, b, n - 1) + (b + 1) * n * box[n - 1].focalLength
  }

  /** The focusing power of the first `n` boxes. */
  function BoxesPower(boxes: seq<Box>, n: nat): int
    requires n <= |boxes|
  {
    if n == 0 then 0 else BoxesPower(boxes, n - 1) + LensesPower(boxes[n - 1], n - 1, |boxes[n - 1]|)
  }

  /** `run`: the focusing power of the arrangement. */
  method Run(ops: seq<Operation>) returns (sum: int)
    ensures sum == BoxesPower(Process(ops), BoxCount)
  {
    var boxList := Process(ops);
    sum := 0;
    for i := 0 to |boxList|
      invariant sum == BoxesPower(boxList, i)
    {
      var lensList := boxList[i];
      for j := 0 to |lensList|
        invariant sum == BoxesPower(boxList, i) + LensesPower(lensList, i, j)
      {
        var boxNumber := i + 1;
        var lensNumber := j + 1;
        sum := sum + boxNumber * lensNumber * lensList[j].focalLength;
      }
    }
  }

  /** Boxes past the one lens contribute nothing. */
  lemma {:induction false} OneLensPower(boxes: seq<Box>, h: nat, n: nat)
    requires h < n <= |boxes| && |boxes[h]| == 1
    requires forall b :: 0 <= b < |boxes| && b != h ==> boxes[b] == []
    ensures BoxesPower(boxes, n) == (h + 1) * boxes[h][0].focalLength
    decreases n
  {
    if n - 1 > h {
      OneLensPower(boxes, h, n - 1);
    } else {
      NoLensesPower(boxes, h);
      assert LensesPower(boxes[h], h, 1) == (h + 1) * 1 * boxes[h][0].focalLength;
    }
  }

  lemma {:induction false} NoLensesPower(boxes: seq<Box>, n: nat)
    requires n <= |boxes| && forall b :: 0 <= b < n ==> boxes[b] == []
    ensures BoxesPower(boxes, n) == 0
    decreases n
  {
    if n > 0 {
      NoLensesPower(boxes, n - 1);
    }
  }

  /** A single lens in box `b` has power (b + 1) times its focal length. */
  lemma SingleLens(name: string, f: int)
    ensures BoxesPower(Process([Operation(name, Replace, f)]), BoxCount) == (Hash(name) + 1) * f
  {
    var op := Operation(name, Replace, f);
    assert [op][..0] == [];
    assert Process([]) == EmptyBoxes();
    var boxes := Process([op]);
    assert boxes == Apply(Process([]), op);
    assert boxes[Hash(name)] == [op];
    OneLensPower(boxes, Hash(name), BoxCount);
  }

  /** Part 2's `main`: one line, split at commas, read into operations and
      arranged; the answer is the focusing power. */
  method FocusingPower(lines: seq<string>) returns (r: Result<int>)
    ensures r.Ok? <==> |lines| == 1 && ParseOperations(SplitOn(lines[0], ",")).Ok?
    ensures r.Ok? ==> r.value == BoxesPower(Process(ParseOperations(SplitOn(lines[0], ",")).value), BoxCount)
  {
    if |lines| != 1 {
      return Fatal(BadInput);
    }
    var ops :- ParseOperations(SplitOn(lines[0], ","));
    var sum := Run(ops);
    return Ok(sum);
  }
}
