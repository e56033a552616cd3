/** Day 16: The Floor Will Be Lava. A beam of light enters a grid of empty
    space ('.'), mirrors ('/' and '\') and splitters ('-' and '|'). Mirrors turn
    it through a right angle; a splitter passes a beam running along it and
    splits a beam that hits its flat side into two going both ways. Every tile
    a beam passes through is energized. Part 1 counts the energized tiles for
    a beam entering the top-left corner heading right; part 2 takes the best
    of the beams entering from the edges (16/part1/part1.go, 16/part2.go).

    The source keeps, on every tile, its type, an "energized" flag and one
    "travelled" flag per direction. Here the types form an immutable `Grid`
    and the flags of all tiles form a `Light`: the set of energized positions
    and the set of travelled beams (position and direction). */
module Day16 {
  import opened Outcome

  datatype Tile = Empty | ForwardMirror | BackMirror | HorizontalSplitter | VerticalSplitter

  datatype Dir = Up | Down | Left | Right

  type Grid = seq<seq<Tile>>

  type Pos = (int, int)

  /** A beam at a tile, travelling in a direction. */
  datatype Beam = Beam(row: int, col: int, dir: Dir)

  /** The per-tile flags of the whole grid. */
  datatype Light = Light(energized: set<Pos>, travelled: set<Beam>)

  const Dirs: set<Dir> := {Up, Down, Left, Right}

  const BadTile := "Invalid tile type found: "

  const BadMirror := "Improper mirror type entered."

  // Parsing

  /** The character of each tile type. */
  function TileChar(t: Tile): char {
    match t
    case Empty => '.'
    case ForwardMirror => '/'
    case BackMirror => '\\'
    case HorizontalSplitter => '-'
    case VerticalSplitter => '|'
  }

  /** The `switch` of `parse`. */
  function ParseTile(c: char): (r: Result<Tile>)
    ensures r.Ok? <==> c in "./\\-|"
    ensures r.Ok? ==> TileChar(r.value) == c
    ensures r.Fatal? ==> r.message == BadTile + [c]
  {
    match c
    case '.' => Ok(Empty)
    case '/' => Ok(ForwardMirror)
    case '\\' => Ok(BackMirror)
    case '-' => Ok(HorizontalSplitter)
    case '|' => Ok(VerticalSplitter)
    case _ => Fatal(BadTile + [c])
  }

  lemma ParseTileChar(t: Tile)
    ensures ParseTile(TileChar(t)) == Ok(t)
  {
  }

  /** The row of tiles drawn by a line, or the complaint about its first
      character that is not a tile. */
  function ParseRow(line: string): (r: Result<seq<Tile>>)
    ensures r.Ok? <==> forall i :: 0 <= i < |line| ==> ParseTile(line[i]).Ok?
    ensures r.Ok? ==> |r.value| == |line| && forall i :: 0 <= i < |line| ==> TileChar(r.value[i]) == line[i]
    ensures r.Fatal? ==> exists k :: (0 <= k < |line| && ParseTile(line[k]).Fatal? && r.message == BadTile + [line[k]] &&
      forall i :: 0 <= i < k ==> ParseTile(line[i]).Ok?)
    decreases |line|
  {
    if |line| == 0 then Ok([])
    else
      var t :- ParseTile(line[0]);
      var rest := ParseRow(line[1..]);
      if rest.Fatal? then
        assert forall i :: 1 <= i < |line| ==> line[1..][i - 1] == line[i];
        Fatal(rest.message)
      else
        assert forall i :: 1 <= i < |line| ==> line[1..][i - 1] == line[i];
        Ok([t] + rest.value)
  }

  /** `parse`: the lines as rows of tiles. The first character that is not a
      tile panics; so does an input without lines, when the width is read off
      the first row. */
  function Parse(lines: seq<string>): (r: Result<Grid>)
    ensures r.Ok? <==> |lines| > 0 && forall i :: 0 <= i < |lines| ==> ParseRow(lines[i]).Ok?
    ensures r.Ok? ==> |r.value| == |lines| && forall i :: 0 <= i < |lines| ==> r.value[i] == ParseRow(lines[i]).value
  {
    var rows :- ParseRows(lines);
    if |rows| == 0 then Fatal("index out of range") else Ok(rows)
  }

  function ParseRows(lines: seq<string>): (r: Result<Grid>)
    ensures r.Ok? <==> forall i :: 0 <= i < |lines| ==> ParseRow(lines[i]).Ok?
    ensures r.Ok? ==> |r.value| == |lines| && forall i :: 0 <= i < |lines| ==> r.value[i] == ParseRow(lines[i]).value
    decreases |lines|
  {
    if |lines| == 0 then Ok([])
    else
      var row :- ParseRow(lines[0]);
      var rest :- ParseRows(lines[1..]);
      assert forall i :: 1 <= i < |lines| ==> lines[1..][i - 1] == lines[i];
      Ok([row] + rest)
  }

  /** The grid drawn back as lines. */
  function Render(g: Grid): (lines: seq<string>)
    ensures |lines| == |g|
  {
    seq(|g|, i requires 0 <= i < |g| => seq(|g[i]|, j requires 0 <= j < |g[i]| => TileChar(g[i][j])))
  }

  /** Drawing a grid and parsing the drawing gives the grid back. */
  lemma ParseRender(g: Grid)
    requires |g| > 0
    ensures Parse(Render(g)) == Ok(g)
  {
    var lines := Render(g);
    forall i | 0 <= i < |g|
      ensures ParseRow(lines[i]) == Ok(g[i])
    {
      var row := ParseRow(lines[i]);
      forall j | 0 <= j < |lines[i]|
        ensures ParseTile(lines[i][j]).Ok?
      {
        ParseTileChar(g[i][j]);
      }
      assert row.Ok?;
      assert row.value == g[i] by {
        forall j | 0 <= j < |g[i]|
          ensures row.value[j] == g[i][j]
        {
          ParseTileChar(g[i][j]);
          ParseTileChar(row.value[j]);
        }
      }
    }
    assert Parse(lines).Ok?;
    var v := Parse(lines).value;
    assert |v| == |g|;
    assert forall i :: 0 <= i < |g| ==> v[i] == g[i];
    assert v == g;
  }

  /** Parsing lines and drawing the grid gives the lines back. */
  lemma RenderParse(lines: seq<string>)
    requires Parse(lines).Ok?
    ensures Render(Parse(lines).value) == lines
  {
    var g := Parse(lines).value;
    var drawn := Render(g);
    forall i | 0 <= i < |lines|
      ensures drawn[i] == lines[i]
    {
      assert |drawn[i]| == |g[i]| == |lines[i]|;
    }
  }

  // The grid's bounds

  /** NUM_COLS: the width of the first row. */
  function Cols(g: Grid): nat {
    if |g| == 0 then 0 else |g[0]|
  }

  /** A grid the beam can walk: at least one row, all rows as wide as the
      first. */
  predicate Rect(g: Grid) {
    |g| > 0 && forall r :: 0 <= r < |g| ==> |g[r]| == |g[0]|
  }

  /** `isOutOfBounds`, negated. */
  predicate InBounds(g: Grid, b: Beam) {
    0 <= b.row < |g| && 0 <= b.col < Cols(g)
  }

  /** Every beam on the grid: position and direction. */
  function AllBeams(g: Grid): set<Beam> {
    set r, c, d | 0 <= r < |g| && 0 <= c < Cols(g) && d in Dirs :: Beam(r, c, d)
  }

  lemma InAllBeams(g: Grid, b: Beam)
    ensures b in AllBeams(g) <==> InBounds(g, b)
  {
    if InBounds(g, b) {
      var r, c, d := b.row, b.col, b.dir;
      assert d in Dirs by {
        match d
        case Up =>
        case Down =>
        case Left =>
        case Right =>
      }
      assert Beam(r, c, d) in AllBeams(g);
    }
  }

  // Moving

  function Opposite(d: Dir): Dir {
    match d
    case Up => Down
    case Down => Up
    case Left => Right
    case Right => Left
  }

  function Horizontal(d: Dir): bool {
    d == Left || d == Right
  }

  /** `nextTile`: one tile on in the direction. */
  function NextTile(row: int, col: int, d: Dir): (p: Pos)
    ensures Horizontal(d) ==> p.0 == row && (p.1 == col - 1 || p.1 == col + 1)
    ensures !Horizontal(d) ==> p.1 == col && (p.0 == row - 1 || p.0 == row + 1)
  {
    match d
    case Left => (row, col - 1)
    case Right => (row, col + 1)
    case Up => (row - 1, col)
    case Down => (row + 1, col)
  }

  /** Going on and then back the other way returns to the start. */
  lemma NextTileBack(row: int, col: int, d: Dir)
    ensures var p := NextTile(row, col, d); NextTile(p.0, p.1, Opposite(d)) == (row, col)
  {
  }

  /** The direction after a mirror: '/' swaps up with right and down with
      left, '\' swaps up with left and down with right. */
  function Bounce(d: Dir, mirror: Tile): (r: Dir)
    requires mirror == ForwardMirror || mirror == BackMirror
    ensures Horizontal(r) != Horizontal(d)
  {
    if mirror == ForwardMirror then
      match d
      case Up => Right
      case Down => Left
      case Right => Up
      case Left => Down
    else
      match d
      case Up => Left
      case Down => Right
      case Right => Down
      case Left => Up
  }

  /** `nextDirectionForMirror`: panics on anything but a mirror. */
  function NextDirectionForMirror(d: Dir, t: Tile): (r: Result<Dir>)
    ensures r.Ok? <==> t == ForwardMirror || t == BackMirror
    ensures r.Fatal? ==> r.message == BadMirror
  {
    if t == ForwardMirror || t == BackMirror then Ok(Bounce(d, t)) else Fatal(BadMirror)
  }

  /** Each mirror undoes itself. */
  lemma MirrorInvolution(d: Dir, t: Tile)
    requires t == ForwardMirror || t == BackMirror
    ensures NextDirectionForMirror(NextDirectionForMirror(d, t).value, t) == Ok(d)
  {
  }

  /** Light is reversible: a beam sent back along the reflected direction
      leaves the mirror opposite to where the first one came in. */
  lemma MirrorReverses(d: Dir, t: Tile)
    requires t == ForwardMirror || t == BackMirror
    ensures Bounce(Opposite(Bounce(d, t)), t) == Opposite(d)
  {
  }

  /** A beam moved one tile on in direction `d`, now travelling in `d`. */
  function Move(b: Beam, d: Dir): Beam {
    var p := NextTile(b.row, b.col, d);
    Beam(p.0, p.1, d)
  }

  /** The beams that leave the tile of `b`, in the order `followPath` follows
      them. */
  function Next(g: Grid, b: Beam): (r: seq<Beam>)
    requires Rect(g) && InBounds(g, b)
    ensures 1 <= |r| <= 2
    ensures forall k :: 0 <= k < |r| ==> r[k] == Move(b, r[k].dir)
    ensures |r| == 2 <==> match g[b.row][b.col]
      case HorizontalSplitter => !Horizontal(b.dir)
      case VerticalSplitter => Horizontal(b.dir)
      case _ => false
    ensures r[0].dir == b.dir <==> match g[b.row][b.col]
      case Empty => true
      case HorizontalSplitter => Horizontal(b.dir)
      case VerticalSplitter => !Horizontal(b.dir)
      case _ => false
  {
    var d := b.dir;
    match g[b.row][b.col]
    case Empty => [Move(b, d)]
    case ForwardMirror => [Move(b, Bounce(d, ForwardMirror))]
    case BackMirror => [Move(b, Bounce(d, BackMirror))]
    case HorizontalSplitter =>
      if d == Left || d == Right then [Move(b, d)] else [Move(b, Left), Move(b, Right)]
    case VerticalSplitter =>
      if d == Up || d == Down then [Move(b, d)] else [Move(b, Up), Move(b, Down)]
  }

  // Following the light

  /** The travelled flags not yet set: the measure that shrinks with every
      call of `followPath` that goes on. */
  function Unset(g: Grid, travelled: set<Beam>): nat {
    |AllBeams(g) - travelled|
  }

  lemma SubsetSize<T>(a: set<T>, b: set<T>)
    requires a <= b
    ensures |a| <= |b|
  {
    assert b == a + (b - a);
  }

  lemma MarkShrinks(g: Grid, b: Beam, travelled: set<Beam>)
    requires InBounds(g, b) && b !in travelled
    ensures Unset(g, travelled + {b}) < Unset(g, travelled)
  {
    InAllBeams(g, b);
    var rest := AllBeams(g) - (travelled + {b});
    assert AllBeams(g) - travelled == rest + {b};
  }

  lemma MoreShrinks(g: Grid, small: set<Beam>, large: set<Beam>)
    requires small <= large
    ensures Unset(g, large) <= Unset(g, small)
  {
    SubsetSize(AllBeams(g) - large, AllBeams(g) - small);
  }

  function Here(b: Beam): Pos {
    (b.row, b.col)
  }

  /** `followPath`: an off-grid beam does nothing; otherwise its tile is
      energized and, unless a beam has already passed it in this direction,
      the flag is set and the beams leaving the tile are followed in turn. */
  function Follow(g: Grid, b: Beam, l: Light): (r: Light)
    requires Rect(g)
    ensures l.travelled <= r.travelled && l.energized <= r.energized
    ensures r.travelled - l.travelled <= AllBeams(g)
    ensures !InBounds(g, b) ==> r == l
    ensures InBounds(g, b) ==> b in r.travelled && Here(b) in r.energized
    ensures InBounds(g, b) && b in l.travelled ==> r == Light(l.energized + {Here(b)}, l.travelled)
    decreases Unset(g, l.travelled)
  {
    if !InBounds(g, b) then l
    else if b in l.travelled then Light(l.energized + {Here(b)}, l.travelled)
    else
      var l1 := Light(l.energized + {Here(b)}, l.travelled + {b});
      InAllBeams(g, b);
      MarkShrinks(g, b, l.travelled);
      var next := Next(g, b);
      var l2 := Follow(g, next[0], l1);
      if |next| == 1 then l2
      else
        MoreShrinks(g, l1.travelled, l2.travelled);
        Follow(g, next[1], l2)
  }

  /** The flags after one beam entering a cleared grid. */
  function Energize(g: Grid, start: Beam): Light
    requires Rect(g)
  {
    Follow(g, start, ClearGrid())
  }

  /** `clearGrid`: no tile energized, no flag set; the tile types are not part
      of `Light`, so they cannot change. */
  function ClearGrid(): (l: Light)
    ensures forall p :: p !in l.energized
    ensures forall b :: b !in l.travelled
  {
    Light({}, {})
  }

  /** The positions of a set of beams. */
  function Positions(travelled: set<Beam>): set<Pos> {
    set b | b in travelled :: Here(b)
  }

  /** The energized tiles are exactly the tiles a beam has passed in some
      direction, if that held before. */
  lemma {:induction false} FollowEnergized(g: Grid, b: Beam, l: Light)
    requires Rect(g) && l.energized == Positions(l.travelled)
    ensures var r := Follow(g, b, l); r.energized == Positions(r.travelled)
    decreases Unset(g, l.travelled)
  {
    if InBounds(g, b) && b !in l.travelled {
      var l1 := Light(l.energized + {Here(b)}, l.travelled + {b});
      assert Positions(l1.travelled) == Positions(l.travelled) + {Here(b)};
      MarkShrinks(g, b, l.travelled);
      var next := Next(g, b);
      FollowEnergized(g, next[0], l1);
      if |next| == 2 {
        var l2 := Follow(g, next[0], l1);
        MoreShrinks(g, l1.travelled, l2.travelled);
        FollowEnergized(g, next[1], l2);
      }
    } else if InBounds(g, b) {
      assert Here(b) in Positions(l.travelled);
    }
  }

  // What the light reaches

  /** A run of on-grid beams, each leaving the tile of the one before. */
  predicate IsPath(g: Grid, p: seq<Beam>)
    requires Rect(g)
  {
    |p| > 0 &&
    (forall i :: 0 <= i < |p| ==> InBounds(g, p[i])) &&
    forall i :: 0 <= i < |p| - 1 ==> p[i + 1] in Next(g, p[i])
  }

  ghost predicate Reaches(g: Grid, a: Beam, x: Beam)
    requires Rect(g)
  {
    exists p :: IsPath(g, p) && p[0] == a && p[|p| - 1] == x
  }

  lemma ReachesItself(g: Grid, a: Beam)
    requires Rect(g) && InBounds(g, a)
    ensures Reaches(g, a, a)
  {
    assert IsPath(g, [a]);
  }

  lemma ReachesBack(g: Grid, b: Beam, s: Beam, x: Beam)
    requires Rect(g) && InBounds(g, b) && s in Next(g, b) && Reaches(g, s, x)
    ensures Reaches(g, b, x)
  {
    var p :| IsPath(g, p) && p[0] == s && p[|p| - 1] == x;
    var q := [b] + p;
    assert forall i :: 1 <= i < |q| ==> q[i] == p[i - 1];
    assert IsPath(g, q);
  }

  /** Every flag a call sets belongs to a beam reachable from the call's beam. */
  lemma {:induction false} FollowSound(g: Grid, b: Beam, l: Light)
    requires Rect(g)
    ensures var r := Follow(g, b, l); forall x :: x in r.travelled - l.travelled ==> Reaches(g, b, x)
    decreases Unset(g, l.travelled)
  {
    if InBounds(g, b) && b !in l.travelled {
      var l1 := Light(l.energized + {Here(b)}, l.travelled + {b});
      MarkShrinks(g, b, l.travelled);
      ReachesItself(g, b);
      var next := Next(g, b);
      var l2 := Follow(g, next[0], l1);
      FollowSound(g, next[0], l1);
      forall x | x in l2.travelled - l1.travelled
        ensures Reaches(g, b, x)
      {
        ReachesBack(g, b, next[0], x);
      }
      if |next| == 2 {
        MoreShrinks(g, l1.travelled, l2.travelled);
        FollowSound(g, next[1], l2);
        forall x | x in Follow(g, next[1], l2).travelled - l2.travelled
          ensures Reaches(g, b, x)
        {
          ReachesBack(g, b, next[1], x);
        }
      }
    }
  }

  /** A beam whose on-grid successors are all in `travelled`. */
  predicate Settled(g: Grid, x: Beam, travelled: set<Beam>)
    requires Rect(g)
  {
    InBounds(g, x) && forall s :: s in Next(g, x) && InBounds(g, s) ==> s in travelled
  }

  lemma SettledMore(g: Grid, x: Beam, small: set<Beam>, large: set<Beam>)
    requires Rect(g) && small <= large && Settled(g, x, small)
    ensures Settled(g, x, large)
  {
  }

  /** A beam is settled once the beams leaving its tile are flagged. */
  lemma SettledByNext(g: Grid, b: Beam, travelled: set<Beam>)
    requires Rect(g) && InBounds(g, b)
    requires var next := Next(g, b);
      (InBounds(g, next[0]) ==> next[0] in travelled) &&
      (|next| == 2 && InBounds(g, next[1]) ==> next[1] in travelled)
    ensures Settled(g, b, travelled)
  {
  }

  /** Every flag a call sets belongs to a beam whose successors are flagged
      too by the time the call returns. */
  lemma {:induction false} FollowClosed(g: Grid, b: Beam, l: Light)
    requires Rect(g)
    ensures forall x :: x in Follow(g, b, l).travelled - l.travelled ==> Settled(g, x, Follow(g, b, l).travelled)
    decreases Unset(g, l.travelled)
  {
    if InBounds(g, b) && b !in l.travelled {
      var l1 := Light(l.energized + {Here(b)}, l.travelled + {b});
      MarkShrinks(g, b, l.travelled);
      var next := Next(g, b);
      var l2 := Follow(g, next[0], l1);
      FollowClosed(g, next[0], l1);
      var r := Follow(g, b, l);
      if |next| == 2 {
        MoreShrinks(g, l1.travelled, l2.travelled);
        FollowClosed(g, next[1], l2);
        assert r == Follow(g, next[1], l2);
        forall x | x in l2.travelled - l1.travelled
          ensures Settled(g, x, r.travelled)
        {
          SettledMore(g, x, l2.travelled, r.travelled);
        }
      } else {
        assert r == l2;
      }
      SettledByNext(g, b, r.travelled);
      forall x | x in r.travelled - l.travelled
        ensures Settled(g, x, r.travelled)
      {
        if x != b {
          assert x in r.travelled - l1.travelled;
        }
      }
    }
  }

  /** A set of flags in which every beam is settled holds every beam reachable
      from one of its members. */
  lemma {:induction false} SettledHoldsPath(g: Grid, travelled: set<Beam>, p: seq<Beam>, n: nat)
    requires Rect(g) && IsPath(g, p) && p[0] in travelled && n < |p|
    requires forall x :: x in travelled ==> Settled(g, x, travelled)
    ensures p[n] in travelled
  {
    if n > 0 {
      SettledHoldsPath(g, travelled, p, n - 1);
      assert Settled(g, p[n - 1], travelled);
    }
  }

  /** The beams flagged by a beam entering a cleared grid are exactly the
      beams reachable from it; none when it starts off the grid. */
  lemma EnergizeReaches(g: Grid, start: Beam, x: Beam)
    requires Rect(g)
    ensures x in Energize(g, start).travelled <==> InBounds(g, start) && Reaches(g, start, x)
  {
    var t := Energize(g, start).travelled;
    assert t - ClearGrid().travelled == t;
    FollowSound(g, start, ClearGrid());
    if InBounds(g, start) && Reaches(g, start, x) {
      FollowClosed(g, start, ClearGrid());
      var p :| IsPath(g, p) && p[0] == start && p[|p| - 1] == x;
      SettledHoldsPath(g, t, p, |p| - 1);
    }
  }

  /** The energized tiles are exactly those of the beams reachable from the
      start. */
  lemma EnergizedTiles(g: Grid, start: Beam)
    requires Rect(g)
    ensures var l := Energize(g, start);
      l.energized == Positions(l.travelled) &&
      forall p :: p in l.energized ==> 0 <= p.0 < |g| && 0 <= p.1 < Cols(g)
  {
    FollowEnergized(g, start, ClearGrid());
    var l := Energize(g, start);
    forall p | p in l.energized
      ensures 0 <= p.0 < |g| && 0 <= p.1 < Cols(g)
    {
      var b :| b in l.travelled && Here(b) == p;
      InAllBeams(g, b);
    }
  }

  // Counting

  /** The energized tiles among the first `c` of row `r`. */
  function RowCount(energized: set<Pos>, r: int, c: nat): (n: nat)
    ensures n <= c
  {
    if c == 0 then 0 else RowCount(energized, r, c - 1) + (if (r, c - 1) in energized then 1 else 0)
  }

  /** The energized tiles among the first `rows` rows, `cols` tiles wide. */
  function CellCount(energized: set<Pos>, rows: nat, cols: nat): (n: nat) {
    if rows == 0 then 0 else CellCount(energized, rows - 1, cols) + RowCount(energized, rows - 1, cols)
  }

  lemma {:induction false} CellCountBound(energized: set<Pos>, rows: nat, cols: nat)
    ensures CellCount(energized, rows, cols) <= rows * cols
  {
    if rows > 0 {
      CellCountBound(energized, rows - 1, cols);
      assert (rows - 1) * cols + cols == rows * cols;
    }
  }

  function RowSet(energized: set<Pos>, r: int, c: nat): set<Pos> {
    set p | p in energized && p.0 == r && 0 <= p.1 < c
  }

  function Within(energized: set<Pos>, rows: nat, cols: nat): set<Pos> {
    set p | p in energized && 0 <= p.0 < rows && 0 <= p.1 < cols
  }

  lemma {:induction false} RowCountSize(energized: set<Pos>, r: int, c: nat)
    ensures RowCount(energized, r, c) == |RowSet(energized, r, c)|
  {
    if c > 0 {
      RowCountSize(energized, r, c - 1);
      var before := RowSet(energized, r, c - 1);
      if (r, c - 1) in energized {
        assert RowSet(energized, r, c) == before + {(r, c - 1)};
      } else {
        assert RowSet(energized, r, c) == before;
      }
    }
  }

  lemma {:induction false} CellCountSize(energized: set<Pos>, rows: nat, cols: nat)
    ensures CellCount(energized, rows, cols) == |Within(energized, rows, cols)|
  {
    if rows > 0 {
      CellCountSize(energized, rows - 1, cols);
      RowCountSize(energized, rows - 1, cols);
      var above := Within(energized, rows - 1, cols);
      var last := RowSet(energized, rows - 1, cols);
      assert Within(energized, rows, cols) == above + last;
      assert above * last == {};
    }
  }

  /** Over a grid holding every energized tile, the count is the number of
      energized tiles. */
  lemma CellCountAll(energized: set<Pos>, rows: nat, cols: nat)
    requires forall p :: p in energized ==> 0 <= p.0 < rows && 0 <= p.1 < cols
    ensures CellCount(energized, rows, cols) == |energized|
  {
    CellCountSize(energized, rows, cols);
    assert Within(energized, rows, cols) == energized;
  }

  /** `sumEnergizedTiles`: the number of energized tiles, at most one per
      tile. */
  method SumEnergizedTiles(g: Grid, l: Light) returns (sum: nat)
    requires Rect(g)
    ensures sum == CellCount(l.energized, |g|, Cols(g))
    ensures sum <= |g| * Cols(g)
    ensures (forall p :: p in l.energized ==> 0 <= p.0 < |g| && 0 <= p.1 < Cols(g)) ==> sum == |l.energized|
  {
    sum := 0;
    var i := 0;
    while i < |g|
      invariant 0 <= i <= |g|
      invariant sum == CellCount(l.energized, i, Cols(g))
    {
      var j := 0;
      while j < |g[i]|
        invariant 0 <= j <= |g[i]|
        invariant sum == CellCount(l.energized, i, Cols(g)) + RowCount(l.energized, i, j)
      {
        if (i, j) in l.energized {
          sum := sum + 1;
        }
        j := j + 1;
      }
      i := i + 1;
    }
    CellCountBound(l.energized, |g|, Cols(g));
    if forall p :: p in l.energized ==> 0 <= p.0 < |g| && 0 <= p.1 < Cols(g) {
      CellCountAll(l.energized, |g|, Cols(g));
    }
  }

  /** The number of tiles a beam entering a cleared grid energizes. */
  function Lit(g: Grid, start: Beam): nat
    requires Rect(g)
  {
    |Energize(g, start).energized|
  }

  /** Part 1: the tiles energized by a beam entering the top-left corner
      heading right. Rows of different widths are refused. */
  method EnergizedFromCorner(lines: seq<string>) returns (r: Result<nat>)
    ensures r.Ok? <==> Parse(lines).Ok? && Rect(Parse(lines).value)
    ensures r.Ok? ==> var g := Parse(lines).value;
      r.value == Lit(g, Beam(0, 0, Right)) && r.value <= |g| * Cols(g)
  {
    var parsed := Parse(lines);
    if parsed.Fatal? {
      return Fatal(parsed.message);
    }
    var g := parsed.value;
    if !Rect(g) {
      return Fatal("index out of range");
    }
    var start := Beam(0, 0, Right);
    var light := Follow(g, start, ClearGrid());
    EnergizedTiles(g, start);
    var sum := SumEnergizedTiles(g, light);
    return Ok(sum);
  }

  // Part 2

  /** The starts of the first `n` rows: from the left edge heading right,
      then from the right edge heading left. */
  function RowStarts(g: Grid, n: nat): (s: seq<Beam>)
    ensures |s| == 2 * n
    ensures forall i :: 0 <= i < n ==> s[2 * i] == Beam(i, 0, Right) && s[2 * i + 1] == Beam(i, Cols(g) - 1, Left)
  {
    if n == 0 then [] else RowStarts(g, n - 1) + [Beam(n - 1, 0, Right), Beam(n - 1, Cols(g) - 1, Left)]
  }

  /** The starts of the first `n` columns: from the top edge heading down,
      then from the bottom edge heading LEFT, as the source has it, not up. */
  function ColumnStarts(g: Grid, n: nat): (s: seq<Beam>)
    ensures |s| == 2 * n
    ensures forall j :: 0 <= j < n ==> s[2 * j] == Beam(0, j, Down) && s[2 * j + 1] == Beam(|g| - 1, j, Left)
  {
    if n == 0 then [] else ColumnStarts(g, n - 1) + [Beam(0, n - 1, Down), Beam(|g| - 1, n - 1, Left)]
  }

  /** Every start `main` tries, in order. */
  function Starts(g: Grid): seq<Beam> {
    RowStarts(g, |g|) + ColumnStarts(g, Cols(g))
  }

  /** No start heads up: the beams from the bottom edge travel left. */
  lemma {:induction false} NoStartHeadsUp(g: Grid)
    ensures forall k :: 0 <= k < |Starts(g)| ==> Starts(g)[k].dir != Up
  {
    var rs := RowStarts(g, |g|);
    var cs := ColumnStarts(g, Cols(g));
    forall k | 0 <= k < |rs|
      ensures rs[k].dir != Up
    {
      assert rs[k] == rs[2 * (k / 2) + k % 2];
    }
    forall k | 0 <= k < |cs|
      ensures cs[k].dir != Up
    {
      assert cs[k] == cs[2 * (k / 2) + k % 2];
    }
  }

  /** The loops of `main`: each start on a cleared grid, keeping the most
      tiles energized. */
  method MaxEnergized(g: Grid) returns (best: nat)
    requires Rect(g)
    ensures forall k :: 0 <= k < |Starts(g)| ==> Lit(g, Starts(g)[k]) <= best
    ensures best == 0 || exists k :: 0 <= k < |Starts(g)| && Lit(g, Starts(g)[k]) == best
    ensures best <= |g| * Cols(g)
  {
    var starts := Starts(g);
    ghost var counts: seq<nat> := seq(|starts|, k requires 0 <= k < |starts| => Lit(g, starts[k]));
    ghost var at;
    best, at := FromRows(g, counts);
    best, at := FromColumns(g, counts, best, at);
    assert forall k :: 0 <= k < |starts| ==> Lit(g, starts[k]) == counts[k];
  }

  /** The first loop of `main`: both ends of every row. */
  method FromRows(g: Grid, ghost counts: seq<nat>) returns (best: nat, ghost at: nat)
    requires Rect(g) && |counts| == |Starts(g)|
    requires forall k :: 0 <= k < |counts| ==> counts[k] == Lit(g, Starts(g)[k])
    ensures best <= |g| * Cols(g) && BestSoFar(counts, 2 * |g|, best, at)
  {
    best, at := 0, 0;
    var i := 0;
    while i < |g|
      invariant 0 <= i <= |g|
      invariant best <= |g| * Cols(g) && BestSoFar(counts, 2 * i, best, at)
    {
      best, at := FromRow(g, counts, i, best, at);
      i := i + 1;
    }
  }

  /** One turn of the first loop: from the left heading right, then from the
      right heading left. */
  method FromRow(g: Grid, ghost counts: seq<nat>, i: nat, best0: nat, ghost at0: nat) returns (best: nat, ghost at: nat)
    requires Rect(g) && |counts| == |Starts(g)| && i < |g|
    requires forall k :: 0 <= k < |counts| ==> counts[k] == Lit(g, Starts(g)[k])
    requires best0 <= |g| * Cols(g) && BestSoFar(counts, 2 * i, best0, at0)
    ensures best <= |g| * Cols(g) && BestSoFar(counts, 2 * i + 2, best, at)
  {
    var rs := RowStarts(g, |g|);
    assert Starts(g)[2 * i] == rs[2 * i] == Beam(i, 0, Right);
    best, at := Keep(g, Beam(i, 0, Right), counts, 2 * i, best0, at0);
    assert Starts(g)[2 * i + 1] == rs[2 * i + 1] == Beam(i, Cols(g) - 1, Left);
    best, at := Keep(g, Beam(i, Cols(g) - 1, Left), counts, 2 * i + 1, best, at);
  }

  /** The second loop of `main`: the top and bottom of every column. */
  method FromColumns(g: Grid, ghost counts: seq<nat>, best0: nat, ghost at0: nat) returns (best: nat, ghost at: nat)
    requires Rect(g) && |counts| == |Starts(g)|
    requires forall k :: 0 <= k < |counts| ==> counts[k] == Lit(g, Starts(g)[k])
    requires best0 <= |g| * Cols(g) && BestSoFar(counts, 2 * |g|, best0, at0)
    ensures best <= |g| * Cols(g) && BestSoFar(counts, |counts|, best, at)
  {
    best, at := best0, at0;
    var j := 0;
    while j < Cols(g)
      invariant 0 <= j <= Cols(g)
      invariant best <= |g| * Cols(g) && BestSoFar(counts, 2 * |g| + 2 * j, best, at)
    {
      best, at := FromColumn(g, counts, j, best, at);
      j := j + 1;
    }
  }

  /** One turn of the second loop: from the top heading down, then from the
      bottom heading left. */
  method FromColumn(g: Grid, ghost counts: seq<nat>, j: nat, best0: nat, ghost at0: nat) returns (best: nat, ghost at: nat)
    requires Rect(g) && |counts| == |Starts(g)| && j < Cols(g)
    requires forall k :: 0 <= k < |counts| ==> counts[k] == Lit(g, Starts(g)[k])
    requires best0 <= |g| * Cols(g) && BestSoFar(counts, 2 * |g| + 2 * j, best0, at0)
    ensures best <= |g| * Cols(g) && BestSoFar(counts, 2 * |g| + 2 * j + 2, best, at)
  {
    var k := 2 * |g| + 2 * j;
    var cs := ColumnStarts(g, Cols(g));
    assert Starts(g)[k] == cs[2 * j] == Beam(0, j, Down);
    best, at := Keep(g, Beam(0, j, Down), counts, k, best0, at0);
    assert Starts(g)[k + 1] == cs[2 * j + 1] == Beam(|g| - 1, j, Left);
    best, at := Keep(g, Beam(|g| - 1, j, Left), counts, k + 1, best, at);
  }

  /** Whether `best` is the largest of the first `done` counts, found at
      `at` unless it is 0. */
  ghost predicate BestSoFar(counts: seq<nat>, done: nat, best: nat, at: nat)
    requires done <= |counts|
  {
    (forall k :: 0 <= k < done ==> counts[k] <= best) &&
    (best == 0 || (at < done && counts[at] == best))
  }

  /** One start of `main`: follow the beam on a cleared grid, count, and keep
      the larger of the count and the best so far. */
  method Keep(g: Grid, start: Beam, ghost counts: seq<nat>, k: nat, best: nat, ghost at: nat)
      returns (best': nat, ghost at': nat)
    requires Rect(g) && k < |counts| && counts[k] == Lit(g, start)
    requires best <= |g| * Cols(g) && BestSoFar(counts, k, best, at)
    ensures best' <= |g| * Cols(g) && BestSoFar(counts, k + 1, best', at')
  {
    var n := Lit1(g, start);
    best' := if best > n then best else n;
    at' := if n > best then k else at;
  }

  /** One start of `main`: follow the beam on a cleared grid and count. */
  method Lit1(g: Grid, start: Beam) returns (n: nat)
    requires Rect(g)
    ensures n == Lit(g, start) && n <= |g| * Cols(g)
  {
    var light := Follow(g, start, ClearGrid());
    EnergizedTiles(g, start);
    n := SumEnergizedTiles(g, light);
  }

  /** Part 2: the most tiles energized from any edge start. */
  method MostEnergized(lines: seq<string>) returns (r: Result<nat>)
    ensures r.Ok? <==> Parse(lines).Ok? && Rect(Parse(lines).value)
    ensures r.Ok? ==> var g := Parse(lines).value;
      r.value <= |g| * Cols(g) &&
      (forall k :: 0 <= k < |Starts(g)| ==> Lit(g, Starts(g)[k]) <= r.value) &&
      (r.value == 0 || exists k :: 0 <= k < |Starts(g)| && Lit(g, Starts(g)[k]) == r.value)
  {
    var parsed := Parse(lines);
    if parsed.Fatal? {
      return Fatal(parsed.message);
    }
    var g := parsed.value;
    if !Rect(g) {
      return Fatal("index out of range");
    }
    var best := MaxEnergized(g);
    return Ok(best);
  }
}
