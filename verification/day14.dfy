/** Day 14: Parabolic Reflector Dish. Round rocks ('O') roll across the
    platform until they meet a cube rock ('#'), the edge, or another round
    rock. Part 1 weighs the rocks after a tilt north, each by its distance from
    the south edge; part 2 spins the platform (north, west, south, east) a
    billion times, shortened by finding the period of the spin states after a
    wind-up (14/part1/part1.go, 14/part2.go). */
module Day14 {
  import opened Outcome

  /** A cell a rock can roll into: anything but a round or a cube rock. */
  predicate Empty(c: char) {
    c != 'O' && c != '#'
  }

  function Min(a: int, b: int): int {
    if a < b then a else b
  }

  function Max(a: int, b: int): int {
    if a > b then a else b
  }

  function Reverse<T>(s: seq<T>): (r: seq<T>)
    ensures |r| == |s| && forall k :: 0 <= k < |s| ==> r[k] == s[|s| - 1 - k]
  {
    seq(|s|, k requires 0 <= k < |s| => s[|s| - 1 - k])
  }

  lemma ReverseTwice<T>(s: seq<T>)
    ensures Reverse(Reverse(s)) == s
  {
  }

  lemma ReverseUpdate<T>(s: seq<T>, k: int, x: T)
    requires 0 <= k < |s|
    ensures Reverse(s[k := x]) == Reverse(s)[|s| - 1 - k := x]
  {
  }

  // Tilting one line

  /** A round rock taken from `from` and put at `to`. */
  function Moved(s: seq<char>, from: nat, to: nat): (t: seq<char>)
    requires from < |s| && to < |s|
    ensures |t| == |s|
  {
    if to != from then s[to := 'O'][from := '.'] else s
  }

  /** The column loop of `slideNorth` (and the row loop of `slideWest`) from
      position `i` on, `next` being where the next round rock lands: a cube
      rock moves `next` past itself, a round rock is moved up to `next`. */
  function Slide(s: seq<char>, i: nat, next: nat): (t: seq<char>)
    requires next <= i <= |s|
    ensures |t| == |s|
    decreases |s| - i
  {
    if i == |s| then s
    else if s[i] == '#' then Slide(s, i + 1, i + 1)
    else if s[i] == 'O' then
      var moved := Moved(s, i, next);
      Slide(moved, i + 1, Min(next + 1, |s| - 1))
    else Slide(s, i + 1, next)
  }

  /** Tilting a line towards its start. */
  function SlideLine(s: seq<char>): (t: seq<char>)
    ensures |t| == |s|
  {
    Slide(s, 0, 0)
  }

  /** Every round rock after the start sits below a rock of either kind. */
  predicate PackedUpTo(s: seq<char>, n: int) {
    forall k :: 0 < k < n && k < |s| && s[k] == 'O' ==> !Empty(s[k - 1])
  }

  predicate Packed(s: seq<char>) {
    PackedUpTo(s, |s|)
  }

  /** The loop invariant: the cells from `next` to `i` are free, the cell
      before `next` is a rock or the edge, and the lines read so far are
      packed. */
  predicate Settled(s: seq<char>, i: nat, next: nat)
    requires next <= i <= |s|
  {
    (forall k :: next <= k < i ==> Empty(s[k])) &&
    (next > 0 ==> !Empty(s[next - 1])) &&
    PackedUpTo(s, i)
  }

  /** Tilting keeps every cube rock where it is, keeps the number of round
      rocks, and leaves the line packed. */
  lemma SlideMeaning(s: seq<char>, i: nat, next: nat)
    requires next <= i <= |s| && Settled(s, i, next)
    ensures var t := Slide(s, i, next);
      (forall k :: 0 <= k < |s| ==> (t[k] == '#' <==> s[k] == '#')) &&
      multiset(t)['O'] == multiset(s)['O'] && Packed(t)
  {
    SlideWalls(s, i, next);
    SlideCount(s, i, next);
    SlidePacked(s, i, next);
  }

  /** The cells between `next` and `i` are free. */
  predicate Free(s: seq<char>, i: nat, next: nat)
    requires next <= i <= |s|
  {
    forall k :: next <= k < i ==> Empty(s[k])
  }

  /** The rock at `i` moves to a free cell, and the cells up to `i + 1` after
      the new landing place are free again. */
  lemma MovedFree(s: seq<char>, i: nat, next: nat)
    requires next <= i < |s| - 1 && Free(s, i, next) && s[i] == 'O'
    ensures var moved := Moved(s, i, next);
      Free(moved, i + 1, next + 1) && moved[next] == 'O' &&
      (forall k :: 0 <= k < |s| && k != next && k != i ==> moved[k] == s[k])
  {
  }

  lemma {:induction false} SlideWalls(s: seq<char>, i: nat, next: nat)
    requires next <= i <= |s| && Free(s, i, next)
    ensures var t := Slide(s, i, next);
      forall k :: 0 <= k < |s| ==> (t[k] == '#' <==> s[k] == '#')
    decreases |s| - i
  {
    if i < |s| {
      if s[i] == '#' {
        SlideWalls(s, i + 1, i + 1);
      } else if s[i] == 'O' {
        if i + 1 < |s| {
          MovedFree(s, i, next);
          SlideWalls(Moved(s, i, next), i + 1, next + 1);
        }
      } else {
        SlideWalls(s, i + 1, next);
      }
    }
  }

  lemma {:induction false} SlideCount(s: seq<char>, i: nat, next: nat)
    requires next <= i <= |s| && Free(s, i, next)
    ensures multiset(Slide(s, i, next))['O'] == multiset(s)['O']
    decreases |s| - i
  {
    if i < |s| {
      if s[i] == '#' {
        SlideCount(s, i + 1, i + 1);
      } else if s[i] == 'O' {
        var moved := Moved(s, i, next);
        if next != i {
          assert s[next] != 'O';
          assert multiset(moved)['O'] == multiset(s)['O'];
        }
        if i + 1 < |s| {
          MovedFree(s, i, next);
          SlideCount(moved, i + 1, next + 1);
        }
      } else {
        SlideCount(s, i + 1, next);
      }
    }
  }

  lemma {:induction false} SlidePacked(s: seq<char>, i: nat, next: nat)
    requires next <= i <= |s| && Settled(s, i, next)
    ensures Packed(Slide(s, i, next))
    decreases |s| - i
  {
    if i < |s| {
      if s[i] == '#' {
        SlidePacked(s, i + 1, i + 1);
      } else if s[i] == 'O' {
        var moved := Moved(s, i, next);
        if i + 1 == |s| {
          assert PackedUpTo(moved, |s|);
        } else {
          MovedFree(s, i, next);
          assert Settled(moved, i + 1, next + 1);
          SlidePacked(moved, i + 1, next + 1);
        }
      } else {
        SlidePacked(s, i + 1, next);
      }
    }
  }

  /** A packed line is left as it is. */
  lemma {:induction false} PackedStays(s: seq<char>, i: nat, next: nat)
    requires next <= i <= |s| && Settled(s, i, next) && Packed(s)
    ensures Slide(s, i, next) == s
    decreases |s| - i
  {
    if i < |s| {
      if s[i] == '#' {
        PackedStays(s, i + 1, i + 1);
      } else if s[i] == 'O' {
        if i > 0 {
          assert !Empty(s[i - 1]);
        }
        assert next == i;
        if i + 1 < |s| {
          PackedStays(s, i + 1, i + 1);
        }
      } else {
        PackedStays(s, i + 1, next);
      }
    }
  }

  /** Tilting twice is tilting once. */
  lemma SlideIdempotent(s: seq<char>)
    ensures SlideLine(SlideLine(s)) == SlideLine(s)
  {
    SlideMeaning(s, 0, 0);
    PackedStays(SlideLine(s), 0, 0);
  }

  /** The column loop of `slideSouth` (and the row loop of `slideEast`) from
      position `i` down to the start, `next` being where the next round rock
      lands. */
  function SlideBack(s: seq<char>, i: int, next: int): (t: seq<char>)
    requires -1 <= i <= next < |s|
    ensures |t| == |s|
    decreases i + 1
  {
    if i < 0 then s
    else if s[i] == '#' then SlideBack(s, i - 1, i - 1)
    else if s[i] == 'O' then
      var moved := Moved(s, i, next);
      SlideBack(moved, i - 1, Max(next - 1, 0))
    else SlideBack(s, i - 1, next)
  }

  /** Tilting a line towards its end. */
  function SlideBackLine(s: seq<char>): (t: seq<char>)
    ensures |t| == |s|
  {
    SlideBack(s, |s| - 1, |s| - 1)
  }

  /** The backward loop is the forward loop on the reversed line. */
  lemma {:induction false} SlideBackMirror(s: seq<char>, i: int, next: int)
    requires -1 <= i <= next < |s|
    ensures SlideBack(s, i, next) == Reverse(Slide(Reverse(s), |s| - 1 - i, |s| - 1 - next))
    decreases i + 1, 1
  {
    if i < 0 {
      ReverseTwice(s);
      assert Slide(Reverse(s), |s|, |s|) == Reverse(s);
    } else if s[i] == 'O' {
      SlideBackMirrorRock(s, i, next);
    } else {
      SlideBackMirrorStill(s, i, next);
    }
  }

  /** The mirror step at a round rock. */
  lemma {:induction false} SlideBackMirrorRock(s: seq<char>, i: int, next: int)
    requires 0 <= i <= next < |s| && s[i] == 'O'
    ensures SlideBack(s, i, next) == Reverse(Slide(Reverse(s), |s| - 1 - i, |s| - 1 - next))
    decreases i + 1, 0
  {
    var r := Reverse(s);
    var j, nj := |s| - 1 - i, |s| - 1 - next;
    var k := Max(next - 1, 0);
    var moved := Moved(s, i, next);
    assert SlideBack(s, i, next) == SlideBack(moved, i - 1, k);
    assert r[j] == 'O';
    assert Slide(r, j, nj) == Slide(Moved(r, j, nj), j + 1, Min(nj + 1, |s| - 1));
    MovedMirror(s, i, next);
    SlideBackMirror(moved, i - 1, k);
    MirrorArguments(moved, Moved(r, j, nj), i - 1, k, j + 1, Min(nj + 1, |s| - 1));
  }

  /** The recursive call's arguments, named as the forward loop's. */
  lemma MirrorArguments(moved: seq<char>, rmoved: seq<char>, i: int, k: int, a: nat, b: nat)
    requires -1 <= i <= k < |moved| && Reverse(moved) == rmoved
    requires a == |moved| - 1 - i && b == |moved| - 1 - k
    ensures Reverse(Slide(Reverse(moved), |moved| - 1 - i, |moved| - 1 - k)) == Reverse(Slide(rmoved, a, b))
  {
  }

  /** The mirror step at a cube rock or a free cell. */
  lemma {:induction false} SlideBackMirrorStill(s: seq<char>, i: int, next: int)
    requires 0 <= i <= next < |s| && s[i] != 'O'
    ensures SlideBack(s, i, next) == Reverse(Slide(Reverse(s), |s| - 1 - i, |s| - 1 - next))
    decreases i + 1, 0
  {
    var r := Reverse(s);
    var j, nj := |s| - 1 - i, |s| - 1 - next;
    assert r[j] == s[i];
    var n' := if s[i] == '#' then i - 1 else next;
    assert Slide(r, j, nj) == Slide(r, j + 1, |s| - 1 - n');
    SlideBackMirror(s, i - 1, n');
  }

  /** Moving a rock from `i` to `next` commutes with reversing the line. */
  lemma MovedMirror(s: seq<char>, i: int, next: int)
    requires 0 <= i <= next < |s|
    ensures Reverse(Moved(s, i, next)) == Moved(Reverse(s), |s| - 1 - i, |s| - 1 - next)
  {
    if next != i {
      ReverseUpdate(s, next, 'O');
      ReverseUpdate(s[next := 'O'], i, '.');
    }
  }

  lemma SlideBackLineMirror(s: seq<char>)
    ensures SlideBackLine(s) == Reverse(SlideLine(Reverse(s)))
  {
    SlideBackMirror(s, |s| - 1, |s| - 1);
  }

  /** Tilting towards the end keeps every cube rock where it is, keeps the
      number of round rocks, packs the rocks against the end, and a second
      tilt changes nothing. */
  lemma SlideBackMeaning(s: seq<char>)
    ensures var t := SlideBackLine(s);
      (forall k :: 0 <= k < |s| ==> (t[k] == '#' <==> s[k] == '#')) &&
      multiset(t)['O'] == multiset(s)['O'] && Packed(Reverse(t))
    ensures SlideBackLine(SlideBackLine(s)) == SlideBackLine(s)
  {
    SlideBackWalls(s);
    SlideBackCount(s);
    SlideBackPacked(s);
    SlideBackIdempotent(s);
  }

  lemma SlideBackWalls(s: seq<char>)
    ensures var t := SlideBackLine(s);
      forall k :: 0 <= k < |s| ==> (t[k] == '#' <==> s[k] == '#')
  {
    var r := Reverse(s);
    SlideBackLineMirror(s);
    SlideWalls(r, 0, 0);
  }

  lemma SlideBackCount(s: seq<char>)
    ensures multiset(SlideBackLine(s))['O'] == multiset(s)['O']
  {
    var r := Reverse(s);
    SlideBackLineMirror(s);
    SlideCount(r, 0, 0);
    ReverseMultiset(s);
    ReverseMultiset(SlideLine(r));
  }

  lemma SlideBackPacked(s: seq<char>)
    ensures Packed(Reverse(SlideBackLine(s)))
  {
    var r := Reverse(s);
    SlideBackLineMirror(s);
    SlidePacked(r, 0, 0);
    ReverseTwice(SlideLine(r));
  }

  lemma SlideBackIdempotent(s: seq<char>)
    ensures SlideBackLine(SlideBackLine(s)) == SlideBackLine(s)
  {
    var r := Reverse(s);
    var t := SlideBackLine(s);
    SlideBackLineMirror(s);
    SlideBackLineMirror(t);
    ReverseTwice(SlideLine(r));
    SlideIdempotent(r);
  }

  lemma {:induction false} ReverseMultiset<T>(s: seq<T>)
    ensures multiset(Reverse(s)) == multiset(s)
    decreases |s|
  {
    if |s| > 0 {
      var rest := s[1..];
      ReverseMultiset(rest);
      assert Reverse(s) == Reverse(rest) + [s[0]];
      assert s == [s[0]] + rest;
    }
  }

  // The platform

  /** The platform as rows of cells, all as long as the first. */
  type Platform = seq<seq<char>>

  predicate Grid(g: Platform) {
    |g| >= 1 && forall i :: 0 <= i < |g| ==> |g[i]| == |g[0]|
  }

  function Width(g: Platform): nat
    requires |g| >= 1
  {
    |g[0]|
  }

  function Column(g: Platform, j: nat): (c: seq<char>)
    requires Grid(g) && j < Width(g)
    ensures |c| == |g| && forall i :: 0 <= i < |g| ==> c[i] == g[i][j]
  {
    seq(|g|, i requires 0 <= i < |g| => g[i][j])
  }

  /** The platform whose columns are `cols`, each `h` cells. */
  function FromColumns(cols: seq<seq<char>>, h: nat): (g: Platform)
    requires h >= 1 && forall j :: 0 <= j < |cols| ==> |cols[j]| == h
    ensures Grid(g) && |g| == h && Width(g) == |cols|
  {
    seq(h, i requires 0 <= i < h => seq(|cols|, j requires 0 <= j < |cols| => cols[j][i]))
  }

  lemma FromColumnsColumns(cols: seq<seq<char>>, h: nat)
    requires h >= 1 && forall j :: 0 <= j < |cols| ==> |cols[j]| == h
    ensures forall j :: 0 <= j < |cols| ==> Column(FromColumns(cols, h), j) == cols[j]
  {
  }

  /** Two platforms of one shape with the same columns are equal. */
  lemma SameColumns(g: Platform, h: Platform)
    requires Grid(g) && Grid(h) && |g| == |h| && Width(g) == Width(h)
    requires forall j :: 0 <= j < Width(g) ==> Column(g, j) == Column(h, j)
    ensures g == h
  {
    forall i | 0 <= i < |g|
      ensures g[i] == h[i]
    {
      forall j | 0 <= j < Width(g)
        ensures g[i][j] == h[i][j]
      {
        assert Column(g, j)[i] == Column(h, j)[i];
      }
    }
  }

  /** `slideNorth`: every column tilted towards row 0. */
  function North(g: Platform): (r: Platform)
    requires Grid(g)
    ensures Grid(r) && |r| == |g| && Width(r) == Width(g)
  {
    FromColumns(seq(Width(g), j requires 0 <= j < Width(g) => SlideLine(Column(g, j))), |g|)
  }

  lemma NorthColumns(g: Platform)
    requires Grid(g)
    ensures forall j :: 0 <= j < Width(g) ==> Column(North(g), j) == SlideLine(Column(g, j))
  {
    FromColumnsColumns(seq(Width(g), j requires 0 <= j < Width(g) => SlideLine(Column(g, j))), |g|);
  }

  /** `slideSouth`: every column tilted towards the last row. */
  function South(g: Platform): (r: Platform)
    requires Grid(g)
    ensures Grid(r) && |r| == |g| && Width(r) == Width(g)
  {
    FromColumns(seq(Width(g), j requires 0 <= j < Width(g) => SlideBackLine(Column(g, j))), |g|)
  }

  lemma SouthColumns(g: Platform)
    requires Grid(g)
    ensures forall j :: 0 <= j < Width(g) ==> Column(South(g), j) == SlideBackLine(Column(g, j))
  {
    FromColumnsColumns(seq(Width(g), j requires 0 <= j < Width(g) => SlideBackLine(Column(g, j))), |g|);
  }

  /** `slideWest`: every row tilted towards column 0. */
  function West(g: Platform): (r: Platform)
    requires Grid(g)
    ensures Grid(r) && |r| == |g| && Width(r) == Width(g)
  {
    seq(|g|, i requires 0 <= i < |g| => SlideLine(g[i]))
  }

  /** `slideEast`: every row tilted towards the last column. */
  function East(g: Platform): (r: Platform)
    requires Grid(g)
    ensures Grid(r) && |r| == |g| && Width(r) == Width(g)
  {
    seq(|g|, i requires 0 <= i < |g| => SlideBackLine(g[i]))
  }

  /** `cycle`: north, west, south, east, in that order. */
  function Cycle(g: Platform): (r: Platform)
    requires Grid(g)
    ensures Grid(r) && |r| == |g| && Width(r) == Width(g)
  {
    East(South(West(North(g))))
  }

  /** A tilt north keeps every cube rock in place and the number of round
      rocks in each column, packs each column, and changes nothing when
      repeated. */
  lemma NorthTilt(g: Platform)
    requires Grid(g)
    ensures forall i, j :: 0 <= i < |g| && 0 <= j < Width(g) ==> (North(g)[i][j] == '#' <==> g[i][j] == '#')
    ensures forall j :: 0 <= j < Width(g) ==>
      multiset(Column(North(g), j))['O'] == multiset(Column(g, j))['O'] && Packed(Column(North(g), j))
    ensures North(North(g)) == North(g)
  {
    var r := North(g);
    NorthColumns(g);
    NorthColumns(r);
    forall j | 0 <= j < Width(g)
      ensures (forall i :: 0 <= i < |g| ==> (r[i][j] == '#' <==> g[i][j] == '#'))
      ensures multiset(Column(r, j))['O'] == multiset(Column(g, j))['O'] && Packed(Column(r, j))
      ensures SlideLine(Column(r, j)) == Column(r, j)
    {
      SlideMeaning(Column(g, j), 0, 0);
      SlideIdempotent(Column(g, j));
      assert forall i :: 0 <= i < |g| ==> r[i][j] == Column(r, j)[i];
    }
    SameColumns(North(r), r);
  }

  /** A tilt west does the same for every row. */
  lemma WestTilt(g: Platform)
    requires Grid(g)
    ensures forall i, j :: 0 <= i < |g| && 0 <= j < Width(g) ==> (West(g)[i][j] == '#' <==> g[i][j] == '#')
    ensures forall i :: 0 <= i < |g| ==>
      multiset(West(g)[i])['O'] == multiset(g[i])['O'] && Packed(West(g)[i])
    ensures West(West(g)) == West(g)
  {
    forall i | 0 <= i < |g|
      ensures (forall j :: 0 <= j < Width(g) ==> (West(g)[i][j] == '#' <==> g[i][j] == '#'))
      ensures multiset(West(g)[i])['O'] == multiset(g[i])['O'] && Packed(West(g)[i])
      ensures West(West(g))[i] == West(g)[i]
    {
      SlideMeaning(g[i], 0, 0);
      SlideIdempotent(g[i]);
    }
  }

  /** The platform upside down. */
  function FlipRows(g: Platform): (r: Platform)
    requires Grid(g)
    ensures Grid(r) && |r| == |g| && Width(r) == Width(g)
    ensures forall j :: 0 <= j < Width(g) ==> Column(r, j) == Reverse(Column(g, j))
  {
    Reverse(g)
  }

  /** The platform left to right. */
  function FlipColumns(g: Platform): (r: Platform)
    requires Grid(g)
    ensures Grid(r) && |r| == |g| && Width(r) == Width(g)
    ensures forall i :: 0 <= i < |g| ==> r[i] == Reverse(g[i])
  {
    seq(|g|, i requires 0 <= i < |g| => Reverse(g[i]))
  }

  /** A tilt south is a tilt north of the platform upside down. */
  lemma SouthMirror(g: Platform)
    requires Grid(g)
    ensures South(g) == FlipRows(North(FlipRows(g)))
  {
    var m := FlipRows(North(FlipRows(g)));
    SouthColumns(g);
    NorthColumns(FlipRows(g));
    forall j | 0 <= j < Width(g)
      ensures Column(South(g), j) == Column(m, j)
    {
      SlideBackLineMirror(Column(g, j));
    }
    SameColumns(South(g), m);
  }

  /** A tilt east is a tilt west of the platform left to right. */
  lemma EastMirror(g: Platform)
    requires Grid(g)
    ensures East(g) == FlipColumns(West(FlipColumns(g)))
  {
    forall i | 0 <= i < |g|
      ensures East(g)[i] == FlipColumns(West(FlipColumns(g)))[i]
    {
      SlideBackLineMirror(g[i]);
    }
  }

  // Loads

  /** A round rock in row `i` of `h` rows weighs `h - i`. */
  function Weight(c: char, i: int, h: int): int {
    if c == 'O' then h - i else 0
  }

  /** The weight of the rocks among the first `n` cells of a column. */
  function ColumnLoad(c: seq<char>, n: nat): int
    requires n <= |c|
  {
    if n == 0 then 0 else ColumnLoad(c, n - 1) + Weight(c[n - 1], n - 1, |c|)
  }

  /** The weight of the first `m` columns. */
  function ColumnsLoad(g: Platform, m: nat): int
    requires Grid(g) && m <= Width(g)
  {
    if m == 0 then 0 else ColumnsLoad(g, m - 1) + ColumnLoad(Column(g, m - 1), |g|)
  }

  /** The weight of the first `m` cells of row `i`. */
  function RowLoad(g: Platform, i: nat, m: nat): int
    requires Grid(g) && i < |g| && m <= Width(g)
  {
    if m == 0 then 0 else RowLoad(g, i, m - 1) + Weight(g[i][m - 1], i, |g|)
  }

  /** The weight of the first `n` rows. */
  function RowsLoad(g: Platform, n: nat): int
    requires Grid(g) && n <= |g|
  {
    if n == 0 then 0 else RowsLoad(g, n - 1) + RowLoad(g, n - 1, Width(g))
  }

  /** A row weighs its number of round rocks times its distance from the far
      edge. */
  lemma {:induction false} RowLoadCount(g: Platform, i: nat, m: nat)
    requires Grid(g) && i < |g| && m <= Width(g)
    ensures RowLoad(g, i, m) == (|g| - i) * multiset(g[i][..m])['O']
  {
    if m > 0 {
      RowLoadCount(g, i, m - 1);
      assert g[i][..m] == g[i][..m - 1] + [g[i][m - 1]];
    }
  }

  /** The weight of cell `m` in each of the first `n` rows. */
  lemma {:induction false} AddColumn(g: Platform, n: nat, m: nat)
    requires Grid(g) && n <= |g| && m < Width(g)
    ensures RowsLoadTo(g, n, m + 1) == RowsLoadTo(g, n, m) + ColumnLoad(Column(g, m), n)
  {
    if n > 0 {
      AddColumn(g, n - 1, m);
    }
  }

  /** The weight of the first `m` cells of each of the first `n` rows. */
  function RowsLoadTo(g: Platform, n: nat, m: nat): int
    requires Grid(g) && n <= |g| && m <= Width(g)
  {
    if n == 0 then 0 else RowsLoadTo(g, n - 1, m) + RowLoad(g, n - 1, m)
  }

  lemma {:induction false} ColumnsRows(g: Platform, m: nat)
    requires Grid(g) && m <= Width(g)
    ensures ColumnsLoad(g, m) == RowsLoadTo(g, |g|, m)
  {
    if m == 0 {
      NoCells(g, |g|);
    } else {
      ColumnsRows(g, m - 1);
      AddColumn(g, |g|, m - 1);
    }
  }

  lemma {:induction false} NoCells(g: Platform, n: nat)
    requires Grid(g) && n <= |g|
    ensures RowsLoadTo(g, n, 0) == 0
  {
    if n > 0 {
      NoCells(g, n - 1);
    }
  }

  lemma {:induction false} RowsAll(g: Platform, n: nat)
    requires Grid(g) && n <= |g|
    ensures RowsLoadTo(g, n, Width(g)) == RowsLoad(g, n)
  {
    if n > 0 {
      RowsAll(g, n - 1);
    }
  }

  /** `calculateMatrixLoad`: column by column, each round rock in row `i`
      adds the number of rows minus `i`; the total is the row-by-row sum. */
  method CalculateMatrixLoad(g: Platform) returns (load: int)
    requires Grid(g)
    ensures load == RowsLoad(g, |g|)
    ensures load == ColumnsLoad(g, Width(g))
  {
    load := 0;
    for j := 0 to Width(g)
      invariant load == ColumnsLoad(g, j)
    {
      ghost var before := load;
      for i := 0 to |g|
        invariant load == before + ColumnLoad(Column(g, j), i)
      {
        if g[i][j] == 'O' {
          load := load + |g| - i;
        }
      }
    }
    ColumnsRows(g, Width(g));
    RowsAll(g, |g|);
  }

  /** Part 1's column loop from row `i` with current weight `w`: a cube rock
      resets the weight to the rows below it, a round rock adds the weight and
      lowers it by one. */
  function Part1Column(c: seq<char>, i: nat, w: int): int
    requires i <= |c|
    decreases |c| - i
  {
    if i == |c| then 0
    else if c[i] == '#' then Part1Column(c, i + 1, |c| - (i + 1))
    else if c[i] == 'O' then w + Part1Column(c, i + 1, w - 1)
    else Part1Column(c, i + 1, w)
  }

  /** The part 1 loop depends only on the cells it has still to read. */
  lemma {:induction false} Part1ColumnSuffix(s: seq<char>, t: seq<char>, i: nat, w: int)
    requires |s| == |t| && i <= |s| && forall k :: i <= k < |s| ==> s[k] == t[k]
    ensures Part1Column(s, i, w) == Part1Column(t, i, w)
    decreases |s| - i
  {
    if i < |s| {
      Part1ColumnSuffix(s, t, i + 1, |s| - (i + 1));
      Part1ColumnSuffix(s, t, i + 1, w - 1);
      Part1ColumnSuffix(s, t, i + 1, w);
    }
  }

  /** Changing a cell changes the prefix weight by that cell's difference. */
  lemma {:induction false} ColumnLoadUpdate(s: seq<char>, a: nat, x: char, n: nat)
    requires a < |s| && n <= |s|
    ensures ColumnLoad(s[a := x], n) ==
      ColumnLoad(s, n) + if a < n then Weight(x, a, |s|) - Weight(s[a], a, |s|) else 0
  {
    if n > 0 {
      ColumnLoadUpdate(s, a, x, n - 1);
    }
  }

  /** Part 1 weighs a column as the tilted column weighs: the loop's weight is
      always the number of rows minus the slot the next rock lands in. */
  lemma {:induction false} Part1Tilted(s: seq<char>, i: nat, next: nat)
    requires next <= i <= |s| && forall k :: next <= k < i ==> Empty(s[k])
    ensures ColumnLoad(Slide(s, i, next), |s|) == ColumnLoad(s, i) + Part1Column(s, i, |s| - next)
    decreases |s| - i
  {
    if i < |s| {
      if s[i] == '#' {
        Part1Tilted(s, i + 1, i + 1);
      } else if s[i] == 'O' {
        var moved := Moved(s, i, next);
        var next' := Min(next + 1, |s| - 1);
        assert ColumnLoad(moved, i + 1) == ColumnLoad(s, i) + (|s| - next) by {
          if next != i {
            ColumnLoadUpdate(s, next, 'O', i + 1);
            ColumnLoadUpdate(s[next := 'O'], i, '.', i + 1);
            assert Empty(s[next]);
          }
        }
        Part1ColumnSuffix(s, moved, i + 1, |s| - next - 1);
        if i + 1 < |s| {
          Part1Tilted(moved, i + 1, next');
        } else {
          assert Slide(moved, i + 1, next') == moved;
        }
      } else {
        Part1Tilted(s, i + 1, next);
      }
    }
  }

  lemma Part1ColumnTilted(c: seq<char>)
    ensures Part1Column(c, 0, |c|) == ColumnLoad(SlideLine(c), |c|)
  {
    Part1Tilted(c, 0, 0);
  }

  /** A column of `n` cells without cube rocks whose last `k` cells from `i`
      hold round rocks collects `w + (w - 1) + ... + (w - k + 1)`. */
  lemma {:induction false} Part1Series(c: seq<char>, i: nat, w: int)
    requires i <= |c| && '#' !in c[i..]
    ensures var k := multiset(c[i..])['O'];
      2 * Part1Column(c, i, w) == k * (2 * w - k + 1)
    decreases |c| - i
  {
    if i < |c| {
      assert c[i..] == [c[i]] + c[i + 1..];
      assert '#' !in c[i + 1..] by {
        assert forall x :: x in c[i + 1..] ==> x in c[i..];
      }
      var k' := multiset(c[i + 1..])['O'];
      if c[i] == 'O' {
        assert multiset(c[i..])['O'] == k' + 1;
        Part1Series(c, i + 1, w - 1);
        SeriesStep(w, k');
      } else {
        assert multiset(c[i..])['O'] == k';
        Part1Series(c, i + 1, w);
      }
    }
  }

  lemma SeriesStep(w: int, k: int)
    ensures 2 * w + k * (2 * (w - 1) - k + 1) == (k + 1) * (2 * w - (k + 1) + 1)
  {
  }

  // Reading the platform

  /** `convertToMatrix` and the copy of `determineCycleCount`: no lines, or a
      line shorter than the first, is indexed past its end; cells past the
      first line's width are never read or written, so they are dropped. */
  function ConvertToMatrix(lines: seq<string>): (r: Result<Platform>)
    ensures r.Ok? <==> |lines| >= 1 && forall i :: 0 <= i < |lines| ==> |lines[i]| >= |lines[0]|
    ensures r.Ok? ==> Grid(r.value) && |r.value| == |lines| && Width(r.value) == |lines[0]|
    ensures r.Ok? ==> forall i, j :: 0 <= i < |lines| && 0 <= j < |lines[0]| ==> r.value[i][j] == lines[i][j]
  {
    if |lines| == 0 then Fatal("index out of range")
    else if forall i :: 0 <= i < |lines| ==> |lines[i]| >= |lines[0]| then
      Ok(seq(|lines|, i requires 0 <= i < |lines| => lines[i][..|lines[0]|]))
    else Fatal("index out of range")
  }

  /** The part 1 column weights of the first `m` columns. */
  function Part1Columns(g: Platform, m: nat): int
    requires Grid(g) && m <= Width(g)
  {
    if m == 0 then 0 else Part1Columns(g, m - 1) + Part1Column(Column(g, m - 1), 0, |g|)
  }

  /** Part 1's `calculateMatrix`: it weighs the platform as it would be after
      a tilt north, without tilting it. */
  function CalculateMatrix(lines: seq<string>): (r: Result<int>)
    ensures r.Ok? <==> ConvertToMatrix(lines).Ok?
    ensures r.Ok? ==> r.value == RowsLoad(North(ConvertToMatrix(lines).value), |lines|)
  {
    var g :- ConvertToMatrix(lines);
    Part1Weighs(g, Width(g));
    CalculateMatrixTotal(North(g));
    Ok(Part1Columns(g, Width(g)))
  }

  lemma {:induction false} Part1Weighs(g: Platform, m: nat)
    requires Grid(g) && m <= Width(g)
    ensures Part1Columns(g, m) == ColumnsLoad(North(g), m)
  {
    if m > 0 {
      Part1Weighs(g, m - 1);
      Part1ColumnTilted(Column(g, m - 1));
      NorthColumns(g);
    }
  }

  lemma CalculateMatrixTotal(g: Platform)
    requires Grid(g)
    ensures ColumnsLoad(g, Width(g)) == RowsLoad(g, |g|)
  {
    ColumnsRows(g, Width(g));
    RowsAll(g, |g|);
  }

  // Spinning

  /** Cycles performed before looking for a repeat. */
  const WindUp: nat := 100
  /** Cycles after which the search for a repeat gives up. */
  const Patience: nat := 100000
  /** Cycles the puzzle asks for. */
  const NumCycles: nat := 1000000000

  /** `f` applied `n` times. */
  function Iterate<T>(f: T -> T, x: T, n: nat): T {
    if n == 0 then x else f(Iterate(f, x, n - 1))
  }

  lemma {:induction false} IterateAdd<T>(f: T -> T, x: T, a: nat, b: nat)
    ensures Iterate(f, x, a + b) == Iterate(f, Iterate(f, x, a), b)
  {
    if b > 0 {
      IterateAdd(f, x, a, b - 1);
    }
  }

  /** Once a state comes back after `c` steps, every further `c` steps bring
      it back again. */
  lemma {:induction false} IteratePeriodic<T>(f: T -> T, x: T, a: nat, c: nat, k: nat, r: nat)
    requires Iterate(f, x, a + c) == Iterate(f, x, a)
    ensures Iterate(f, x, a + k * c + r) == Iterate(f, x, a + r)
  {
    if k > 0 {
      IteratePeriodic(f, x, a, c, k - 1, 0);
      var b := a + (k - 1) * c;
      assert a + k * c == b + c;
      IterateAdd(f, x, b, c);
      IterateAdd(f, x, a, c);
    }
    IterateAdd(f, x, a + k * c, r);
    IterateAdd(f, x, a, r);
  }

  /** A cycle, on any platform the program can hold. */
  function Spin(g: Platform): Platform {
    if Grid(g) then Cycle(g) else g
  }

  /** The platform after `n` cycles. */
  function Cycles(g: Platform, n: nat): Platform {
    Iterate(Spin, g, n)
  }

  lemma {:induction false} CyclesShape(g: Platform, n: nat)
    requires Grid(g)
    ensures Grid(Cycles(g, n)) && |Cycles(g, n)| == |g| && Width(Cycles(g, n)) == Width(g)
  {
    if n > 0 {
      CyclesShape(g, n - 1);
    }
  }

  /** The state after `c` cycles past the wind-up is the wound-up one. */
  predicate Repeats(g: Platform, c: nat) {
    Cycles(g, WindUp + c) == Cycles(g, WindUp)
  }

  const NoRepeat := "A repeating sequence was not found after 100,000 iterations. Consider increasing WINDUP_CYCLE_COUNT."

  /** The counting loop of `determineCycleCount`, for any step `f`: the
      smallest `c` from 1 to `limit` after which `f` brings `x` back, or the
      panic when there is none. */
  method FindPeriod<T(==)>(f: T -> T, x: T, limit: nat) returns (r: Result<nat>)
    requires limit >= 1
    ensures r.Ok? ==> 1 <= r.value <= limit && Iterate(f, x, r.value) == x
    ensures r.Ok? ==> forall c :: 1 <= c < r.value ==> Iterate(f, x, c) != x
    ensures r.Fatal? <==> forall c :: 1 <= c <= limit ==> Iterate(f, x, c) != x
  {
    var matrix := f(x);
    var cycleCount: nat := 1;
    while matrix != x
      invariant 1 <= cycleCount <= limit && matrix == Iterate(f, x, cycleCount)
      invariant forall c :: 1 <= c < cycleCount ==> Iterate(f, x, c) != x
      decreases limit - cycleCount
    {
      if cycleCount >= limit {
        assert Iterate(f, x, cycleCount) != x;
        return Fatal(NoRepeat);
      }
      assert Iterate(f, x, cycleCount) != x;
      matrix := f(matrix);
      cycleCount := cycleCount + 1;
    }
    return Ok(cycleCount);
  }

  /** `determineCycleCount`: on a copy of the platform, winds up and then
      counts the cycles until the wound-up state comes back, the smallest
      such count; giving up after `Patience` cycles panics. */
  method DetermineCycleCount(g: Platform) returns (r: Result<nat>)
    requires Grid(g)
    ensures r.Ok? ==> 1 <= r.value <= Patience && Repeats(g, r.value)
    ensures r.Ok? ==> forall c :: 1 <= c < r.value ==> !Repeats(g, c)
    ensures r.Fatal? <==> forall c :: 1 <= c <= Patience ==> !Repeats(g, c)
  {
    var matrix := IterateFrom(Spin, g, g, 0, WindUp);
    r := FindPeriod(Spin, matrix, Patience);
    var bound := if r.Ok? then r.value - 1 else Patience;
    forall c | 1 <= c <= bound
      ensures !Repeats(g, c)
    {
      RepeatsAfterWindUp(g, matrix, c);
    }
    if r.Ok? {
      RepeatsAfterWindUp(g, matrix, r.value);
    }
  }

  /** A repeat of the wound-up state, counted from that state. */
  lemma RepeatsAfterWindUp(g: Platform, wound: Platform, c: nat)
    requires wound == Cycles(g, WindUp)
    ensures Repeats(g, c) <==> Iterate(Spin, wound, c) == wound
  {
    IterateAdd(Spin, g, WindUp, c);
  }

  /** The loops of the program that apply a step `k` more times to a state
      reached after `a` steps. */
  method IterateFrom<T>(f: T -> T, x: T, y: T, a: nat, k: nat) returns (z: T)
    requires y == Iterate(f, x, a)
    ensures z == Iterate(f, x, a + k)
  {
    z := y;
    for i := 0 to k
      invariant z == Iterate(f, x, a + i)
    {
      z := f(z);
    }
  }

  /** Part 2: the load after a billion cycles, reached by winding up and then
      running only the remainder of the cycles modulo the period. */
  method SpinLoad(lines: seq<string>) returns (r: Result<int>)
    ensures r.Ok? <==> (ConvertToMatrix(lines).Ok? &&
                        exists c :: 1 <= c <= Patience && Repeats(ConvertToMatrix(lines).value, c))
    ensures r.Ok? ==> (ConvertToMatrix(lines).Ok? &&
      var g := ConvertToMatrix(lines).value;
      CyclesShapeOf(g, NumCycles) && r.value == RowsLoad(Cycles(g, NumCycles), |g|))
  {
    var g :- ConvertToMatrix(lines);
    var cycleCount :- DetermineCycleCount(g);
    var matrix := IterateFrom(Spin, g, g, 0, WindUp);
    var numIterations := (NumCycles - WindUp) % cycleCount;
    matrix := IterateFrom(Spin, g, matrix, WindUp, numIterations);
    assert Repeats(g, cycleCount);
    assert Cycles(g, WindUp + cycleCount) == Cycles(g, WindUp);
    assert numIterations == (NumCycles - WindUp) % cycleCount;
    SkipPeriods(g, WindUp, cycleCount, NumCycles, numIterations);
    assert matrix == Cycles(g, NumCycles);
    CyclesShape(g, NumCycles);
    var load := CalculateMatrixLoad(matrix);
    return Ok(load);
  }

  /** With a period `c` from cycle `a` on, cycle `n` is cycle `a` plus the
      remainder of `n - a` modulo `c`. */
  lemma SkipPeriods(g: Platform, a: nat, c: nat, n: nat, rem: nat)
    requires a <= n && c >= 1 && Cycles(g, a + c) == Cycles(g, a)
    requires rem == (n - a) % c
    ensures Cycles(g, n) == Cycles(g, a + rem)
  {
    var q := (n - a) / c;
    assert n == a + q * c + rem;
    IteratePeriodic(Spin, g, a, c, q, rem);
  }

  /** The platform keeps its shape through `n` cycles. */
  predicate CyclesShapeOf(g: Platform, n: nat) {
    Grid(Cycles(g, n)) && |Cycles(g, n)| == |g|
  }
}
