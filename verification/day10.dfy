/** Day 10: Pipe Maze. The grid of pipe pieces is searched breadth first from
    the start tile along connected pipes; part 1 reports the farthest distance
    reached, part 2 counts the tiles enclosed by the loop with a row scan
    (10/part1/part1.go, 10/part2.go). */
module Day10 {
  import opened Outcome

  /** `metalJoin` / `metalPieceType`. */
  datatype Pipe = Ground | Vertical | Horizontal | ElbowL | ElbowJ | ElbowF | Elbow7 | Start

  type Grid = seq<seq<Pipe>>

  /** A (row, column) coordinate. */
  type Cell = (int, int)

  /** The character that stands for a piece in the input; `CreateNode` reads it
      back. */
  function Symbol(p: Pipe): char {
    match p
    case Ground => '.'
    case Vertical => '|'
    case Horizontal => '-'
    case ElbowL => 'L'
    case ElbowJ => 'J'
    case ElbowF => 'F'
    case Elbow7 => '7'
    case Start => 'S'
  }

  /** `createNode`: any other character panics. */
  function CreateNode(c: char): (r: Result<Pipe>)
    ensures r.Ok? ==> Symbol(r.value) == c
  {
    match c
    case '.' => Ok(Ground)
    case '|' => Ok(Vertical)
    case '-' => Ok(Horizontal)
    case 'L' => Ok(ElbowL)
    case 'J' => Ok(ElbowJ)
    case 'F' => Ok(ElbowF)
    case '7' => Ok(Elbow7)
    case 'S' => Ok(Start)
    case _ => Fatal("Invalid letter found: " + [c])
  }

  /** Reading a piece's symbol gives the piece back. */
  lemma SymbolRoundTrip(p: Pipe)
    ensures CreateNode(Symbol(p)) == Ok(p)
  {
  }

  /** A character is read as a piece exactly when it is one's symbol. */
  lemma CreateNodeTotal(c: char)
    ensures CreateNode(c).Ok? <==> exists p :: Symbol(p) == c
  {
    if CreateNode(c).Ok? {
      assert Symbol(CreateNode(c).value) == c;
    }
  }

  /** Every row is as wide as the first; the program takes the width from row
      0 and indexes the other rows with it. */
  predicate Rectangular(g: Grid) {
    |g| >= 1 && forall i :: 0 <= i < |g| ==> |g[i]| == |g[0]|
  }

  predicate InBounds(g: Grid, k: Cell) {
    0 <= k.0 < |g| && 0 <= k.1 < |g[0]|
  }

  /** `isOutOfBounds`, with the program's last row and column indices. */
  function OutOfBounds(g: Grid, row: int, col: int): (b: bool)
    requires |g| >= 1
    ensures b <==> !InBounds(g, (row, col))
  {
    var lastRow, lastColumn := |g| - 1, |g[0]| - 1;
    row < 0 || row > lastRow || col < 0 || col > lastColumn
  }

  function At(g: Grid, k: Cell): Pipe
    requires Rectangular(g) && InBounds(g, k)
  {
    g[k.0][k.1]
  }

  /** `initializeGraph`: every character becomes a piece. No lines at all
      fails on reading row 0; a row of another width than the first is
      refused. */
  function ParseGrid(lines: seq<string>): (r: Result<Grid>)
    ensures r.Ok? <==>
      (forall i, j :: 0 <= i < |lines| && 0 <= j < |lines[i]| ==> CreateNode(lines[i][j]).Ok?) &&
      |lines| >= 1 && (forall i :: 0 <= i < |lines| ==> |lines[i]| == |lines[0]|)
    ensures r.Ok? ==> Rectangular(r.value) && |r.value| == |lines|
    ensures r.Ok? ==> forall i, j :: 0 <= i < |lines| && 0 <= j < |lines[i]| ==>
      j < |r.value[i]| && Symbol(r.value[i][j]) == lines[i][j]
  {
    var rows :- ParseRows(lines, |lines|);
    if |lines| == 0 then Fatal("index out of range")
    else if exists i :: 0 <= i < |lines| && |lines[i]| != |lines[0]| then Fatal("index out of range")
    else Ok(rows)
  }

  /** The first `n` lines read into rows of pieces. */
  function ParseRows(lines: seq<string>, n: nat): (r: Result<Grid>)
    requires n <= |lines|
    ensures r.Ok? <==> forall i, j :: 0 <= i < n && 0 <= j < |lines[i]| ==> CreateNode(lines[i][j]).Ok?
    ensures r.Ok? ==> |r.value| == n && forall i :: 0 <= i < n ==> |r.value[i]| == |lines[i]|
    ensures r.Ok? ==> forall i, j :: 0 <= i < n && 0 <= j < |lines[i]| ==> Ok(r.value[i][j]) == CreateNode(lines[i][j])
  {
    if n == 0 then Ok([])
    else
      var before :- ParseRows(lines, n - 1);
      var row :- ParseRow(lines[n - 1], |lines[n - 1]|);
      Ok(before + [row])
  }

  /** The first `n` characters of a line read into pieces. */
  function ParseRow(line: string, n: nat): (r: Result<seq<Pipe>>)
    requires n <= |line|
    ensures r.Ok? <==> forall j :: 0 <= j < n ==> CreateNode(line[j]).Ok?
    ensures r.Ok? ==> |r.value| == n && forall j :: 0 <= j < n ==> Ok(r.value[j]) == CreateNode(line[j])
  {
    if n == 0 then Ok([])
    else
      var before :- ParseRow(line, n - 1);
      var p :- CreateNode(line[n - 1]);
      Ok(before + [p])
  }

  datatype Direction = North | South | West | East

  function Opposite(d: Direction): Direction {
    match d
    case North => South
    case South => North
    case West => East
    case East => West
  }

  function Step(k: Cell, d: Direction): Cell {
    match d
    case North => (k.0 - 1, k.1)
    case South => (k.0 + 1, k.1)
    case West => (k.0, k.1 - 1)
    case East => (k.0, k.1 + 1)
  }

  /** Stepping back the opposite way returns to the same cell. */
  lemma StepBack(k: Cell, d: Direction)
    ensures Step(Step(k, d), Opposite(d)) == k
  {
  }

  /** Which sides a piece has an opening on; the start tile counts as open on
      all four. */
  predicate Opens(p: Pipe, d: Direction) {
    match p
    case Ground => false
    case Vertical => d == North || d == South
    case Horizontal => d == West || d == East
    case ElbowL => d == North || d == East
    case ElbowJ => d == North || d == West
    case ElbowF => d == South || d == East
    case Elbow7 => d == South || d == West
    case Start => true
  }

  /** The `invalidTypes` of each `fetch…Neighbor`: pieces that cannot be left
      in direction `d`. */
  function Blocked(d: Direction): set<Pipe> {
    match d
    case North => {Ground, Horizontal, ElbowF, Elbow7}
    case South => {Ground, Horizontal, ElbowL, ElbowJ}
    case West => {Ground, Vertical, ElbowL, ElbowF}
    case East => {Ground, Vertical, ElbowJ, Elbow7}
  }

  /** The `invalidNeighbors`: pieces that cannot be entered from direction
      `d`, the start tile among them. */
  function Refused(d: Direction): set<Pipe> {
    match d
    case North => {Ground, Horizontal, ElbowL, ElbowJ, Start}
    case South => {Ground, Horizontal, ElbowF, Elbow7, Start}
    case West => {Ground, Vertical, ElbowJ, Elbow7, Start}
    case East => {Ground, Vertical, ElbowL, ElbowF, Start}
  }

  /** `fetchNorthNeighbor` and its three siblings: the cell in direction `d`
      when it is in the grid, the current piece opens that way and the next
      piece opens back; never the start tile. */
  function Fetch(g: Grid, k: Cell, d: Direction): (r: Option<Cell>)
    requires Rectangular(g) && InBounds(g, k)
    ensures r.Some? ==> r.value == Step(k, d) && InBounds(g, r.value) && At(g, r.value) != Start
  {
    var n := Step(k, d);
    if OutOfBounds(g, n.0, n.1) then None
    else if At(g, k) in Blocked(d) then None
    else if At(g, n) in Refused(d) then None
    else Some(n)
  }

  /** A neighbour is returned exactly when it is in the grid, the two pieces
      open towards each other and the neighbour is not the start tile. */
  lemma FetchMeansOpen(g: Grid, k: Cell, d: Direction)
    requires Rectangular(g) && InBounds(g, k)
    ensures Fetch(g, k, d).Some? <==>
      InBounds(g, Step(k, d)) && Opens(At(g, k), d) &&
      At(g, Step(k, d)) != Start && Opens(At(g, Step(k, d)), Opposite(d))
  {
  }

  /** Between two ordinary pieces the connection is mutual: `b` is `a`'s
      neighbour in direction `d` exactly when `a` is `b`'s in the opposite
      direction. */
  lemma FetchSymmetric(g: Grid, a: Cell, b: Cell, d: Direction)
    requires Rectangular(g) && InBounds(g, a) && InBounds(g, b)
    requires At(g, a) != Start && At(g, b) != Start
    ensures Fetch(g, a, d) == Some(b) <==> Fetch(g, b, Opposite(d)) == Some(a)
  {
    if Fetch(g, a, d) == Some(b) {
      assert Step(b, Opposite(d)) == a;
    }
    if Fetch(g, b, Opposite(d)) == Some(a) {
      assert Step(a, d) == b;
      assert Opposite(Opposite(d)) == d;
    }
  }

  /** `findStartingPoint`: the first start tile in reading order. */
  method FindStartingPoint(g: Grid) returns (r: Result<Cell>)
    requires Rectangular(g)
    ensures r.Ok? ==> InBounds(g, r.value) && At(g, r.value) == Start
    ensures r.Ok? ==> forall k :: InBounds(g, k) && At(g, k) == Start ==>
      r.value.0 < k.0 || (r.value.0 == k.0 && r.value.1 <= k.1)
    ensures r.Fatal? <==> forall k :: InBounds(g, k) ==> At(g, k) != Start
  {
    for i := 0 to |g|
      invariant forall k :: InBounds(g, k) && k.0 < i ==> At(g, k) != Start
    {
      for j := 0 to |g[0]|
        invariant forall k :: InBounds(g, k) && (k.0 < i || (k.0 == i && k.1 < j)) ==> At(g, k) != Start
      {
        if g[i][j] == Start {
          assert At(g, (i, j)) == Start;
          return Ok((i, j));
        }
      }
    }
    return Fatal("Starting character not found.");
  }

  /** Reached by the search: the start tile or a tile with a distance. */
  predicate Visited(start: Cell, dist: map<Cell, nat>, k: Cell) {
    k == start || k in dist
  }

  function DistanceOf(dist: map<Cell, nat>, k: Cell): nat {
    if k in dist then dist[k] else 0
  }

  /** `k` was reached from its neighbour in the opposite direction of `d`, one
      step farther than that neighbour. */
  predicate HasParent(g: Grid, start: Cell, dist: map<Cell, nat>, k: Cell, d: Direction)
    requires Rectangular(g)
  {
    var p := Step(k, Opposite(d));
    k in dist && InBounds(g, p) && Visited(start, dist, p) &&
    Fetch(g, p, d) == Some(k) && DistanceOf(dist, p) + 1 == dist[k]
  }

  function AllCells(g: Grid): set<Cell>
    requires Rectangular(g)
  {
    set r, c | 0 <= r < |g| && 0 <= c < |g[0]| :: (r, c)
  }

  /** The distances recorded so far are of ordinary in-grid tiles, each
      reached from the neighbour `parent` names, one step closer. */
  predicate Founded(g: Grid, start: Cell, dist: map<Cell, nat>, parent: map<Cell, Direction>)
    requires Rectangular(g)
  {
    start !in dist &&
    forall k :: k in dist ==>
      InBounds(g, k) && At(g, k) != Start && dist[k] >= 1 &&
      k in parent && HasParent(g, start, dist, k, parent[k])
  }

  predicate Distinct(queue: seq<Cell>) {
    forall i, j :: 0 <= i < j < |queue| ==> queue[i] != queue[j]
  }

  /** `queue'` is `queue` with tiles appended at the back, each recorded at
      distance `v` in `dist'`. */
  ghost predicate Appended(queue: seq<Cell>, queue': seq<Cell>, dist': map<Cell, nat>, v: nat) {
    |queue| <= |queue'| && (forall i :: 0 <= i < |queue| ==> queue'[i] == queue[i]) &&
    forall i :: |queue| <= i < |queue'| ==> queue'[i] in dist' && dist'[queue'[i]] == v
  }

  lemma AppendedTransitive(q1: seq<Cell>, q2: seq<Cell>, d2: map<Cell, nat>, q3: seq<Cell>, d3: map<Cell, nat>, v: nat)
    requires Appended(q1, q2, d2, v) && Appended(q2, q3, d3, v)
    requires forall k :: k in d2 ==> k in d3 && d3[k] == d2[k]
    ensures Appended(q1, q3, d3, v)
  {
    forall i | |q1| <= i < |q3|
      ensures q3[i] in d3 && d3[q3[i]] == v
    {
      if i < |q2| {
        assert q3[i] == q2[i];
      }
    }
  }

  /** `appendToQueue`: a missing neighbour, one already given a distance, or
      a start tile is skipped; otherwise it gets the distance and joins the
      back of the queue. */
  function Enqueue(start: Cell, queue: seq<Cell>, dist: map<Cell, nat>, neighbor: Option<Cell>, distance: nat)
    : (r: (seq<Cell>, map<Cell, nat>))
    ensures neighbor.Some? ==> Visited(start, r.1, neighbor.value)
    ensures forall k :: k in dist ==> k in r.1 && r.1[k] == dist[k]
    ensures neighbor.Some? && !Visited(start, dist, neighbor.value) ==> r.1[neighbor.value] == distance
  {
    if neighbor.None? || Visited(start, dist, neighbor.value) then (queue, dist)
    else (queue + [neighbor.value], dist[neighbor.value := distance])
  }

  /** From (`queue`, `dist`) to (`queue'`, `dist'`) tiles are only added:
      recorded distances stay as they are, old queue entries stay, and the
      queue gains exactly the newly reached tiles, each once. */
  ghost predicate Extends(start: Cell, queue: seq<Cell>, dist: map<Cell, nat>, queue': seq<Cell>, dist': map<Cell, nat>) {
    dist.Keys <= dist'.Keys && (forall k :: k in dist ==> dist'[k] == dist[k]) &&
    Distinct(queue') && (forall q :: q in queue' ==> Visited(start, dist', q)) &&
    (forall q :: q in queue' ==> q in queue || (q in dist' && q !in dist)) &&
    (forall k :: k in dist' && k !in dist ==> k in queue') &&
    (forall q :: q in queue ==> q in queue') &&
    (dist'.Keys == dist.Keys ==> queue' == queue)
  }

  lemma ExtendsTransitive(start: Cell, q1: seq<Cell>, d1: map<Cell, nat>, q2: seq<Cell>, d2: map<Cell, nat>,
                          q3: seq<Cell>, d3: map<Cell, nat>)
    requires Extends(start, q1, d1, q2, d2) && Extends(start, q2, d2, q3, d3)
    ensures Extends(start, q1, d1, q3, d3)
  {
  }

  /** One `appendToQueue` of the neighbour in direction `d` of a reached tile:
      the distances stay founded, nothing reached is forgotten or renumbered,
      only a newly reached tile joins the queue, and the neighbour is reached
      afterwards. */
  method EnqueueStep(g: Grid, start: Cell, queue: seq<Cell>, dist: map<Cell, nat>, ghost parent: map<Cell, Direction>,
                     cur: Cell, d: Direction)
    returns (queue': seq<Cell>, dist': map<Cell, nat>, ghost parent': map<Cell, Direction>)
    requires Rectangular(g) && InBounds(g, cur) && Visited(start, dist, cur)
    requires Founded(g, start, dist, parent)
    requires Distinct(queue) && forall q :: q in queue ==> Visited(start, dist, q)
    ensures Founded(g, start, dist', parent')
    ensures Extends(start, queue, dist, queue', dist')
    ensures Appended(queue, queue', dist', DistanceOf(dist, cur) + 1)
    ensures Visited(start, dist', cur) && DistanceOf(dist', cur) == DistanceOf(dist, cur)
    ensures Fetch(g, cur, d).Some? ==> Visited(start, dist', Fetch(g, cur, d).value)
  {
    var n := Fetch(g, cur, d);
    var next := Enqueue(start, queue, dist, n, DistanceOf(dist, cur) + 1);
    queue', dist' := next.0, next.1;
    parent' := parent;
    EnqueueExtends(start, queue, dist, n, DistanceOf(dist, cur) + 1);
    if n.Some? && !Visited(start, dist, n.value) {
      parent' := parent[n.value := d];
      EnqueueFounded(g, start, dist, parent, cur, d, n.value);
    }
  }

  /** `appendToQueue` only adds: a tile it records is new and joins the queue once. */
  lemma EnqueueExtends(start: Cell, queue: seq<Cell>, dist: map<Cell, nat>, n: Option<Cell>, distance: nat)
    requires Distinct(queue) && forall q :: q in queue ==> Visited(start, dist, q)
    ensures Extends(start, queue, dist, Enqueue(start, queue, dist, n, distance).0, Enqueue(start, queue, dist, n, distance).1)
    ensures Appended(queue, Enqueue(start, queue, dist, n, distance).0, Enqueue(start, queue, dist, n, distance).1, distance)
  {
    if n.Some? && !Visited(start, dist, n.value) {
      var k := n.value;
      var dist' := dist[k := distance];
      assert dist'.Keys == dist.Keys + {k};
    }
  }

  /** Recording a newly reached neighbour one step beyond `cur`, with `d` as
      its parent direction, keeps every distance founded. */
  lemma EnqueueFounded(g: Grid, start: Cell, dist: map<Cell, nat>, parent: map<Cell, Direction>, cur: Cell, d: Direction, k: Cell)
    requires Rectangular(g) && InBounds(g, cur) && Visited(start, dist, cur)
    requires Founded(g, start, dist, parent)
    requires Fetch(g, cur, d) == Some(k) && !Visited(start, dist, k)
    ensures Founded(g, start, dist[k := DistanceOf(dist, cur) + 1], parent[k := d])
  {
    var v := DistanceOf(dist, cur) + 1;
    NewParent(g, start, dist, cur, d, k);
    FoundedKept(g, start, dist, parent, k, d, v);
  }

  /** Recording a tile not reached before keeps every earlier tile founded. */
  lemma FoundedKept(g: Grid, start: Cell, dist: map<Cell, nat>, parent: map<Cell, Direction>, k: Cell, d: Direction, v: nat)
    requires Rectangular(g) && Founded(g, start, dist, parent) && !Visited(start, dist, k)
    ensures forall x :: x in dist ==>
      InBounds(g, x) && At(g, x) != Start && dist[k := v][x] >= 1 && x in parent[k := d] &&
      HasParent(g, start, dist[k := v], x, parent[k := d][x])
  {
    forall x | x in dist
      ensures HasParent(g, start, dist[k := v], x, parent[k := d][x])
    {
      ParentKept(g, start, dist, x, parent[x], k, v);
    }
  }

  /** The neighbour reached from `cur` in direction `d` has `cur` as its parent. */
  lemma NewParent(g: Grid, start: Cell, dist: map<Cell, nat>, cur: Cell, d: Direction, k: Cell)
    requires Rectangular(g) && InBounds(g, cur) && Visited(start, dist, cur)
    requires Fetch(g, cur, d) == Some(k) && !Visited(start, dist, k)
    ensures HasParent(g, start, dist[k := DistanceOf(dist, cur) + 1], k, d)
  {
    StepBack(cur, d);
  }

  /** Recording a tile not reached before keeps every parent link. */
  lemma ParentKept(g: Grid, start: Cell, dist: map<Cell, nat>, x: Cell, dir: Direction, k: Cell, v: nat)
    requires Rectangular(g) && HasParent(g, start, dist, x, dir) && !Visited(start, dist, k)
    ensures HasParent(g, start, dist[k := v], x, dir)
  {
  }

  /** Two `appendToQueue` calls in a row, for the neighbours in directions
      `a` and `b`. */
  method EnqueueTwo(g: Grid, start: Cell, queue: seq<Cell>, dist: map<Cell, nat>, ghost parent: map<Cell, Direction>,
                    cur: Cell, a: Direction, b: Direction)
    returns (queue': seq<Cell>, dist': map<Cell, nat>, ghost parent': map<Cell, Direction>)
    requires Rectangular(g) && InBounds(g, cur) && Visited(start, dist, cur)
    requires Founded(g, start, dist, parent)
    requires Distinct(queue) && forall q :: q in queue ==> Visited(start, dist, q)
    ensures Founded(g, start, dist', parent')
    ensures Extends(start, queue, dist, queue', dist')
    ensures Appended(queue, queue', dist', DistanceOf(dist, cur) + 1)
    ensures Visited(start, dist', cur) && DistanceOf(dist', cur) == DistanceOf(dist, cur)
    ensures Fetch(g, cur, a).Some? ==> Visited(start, dist', Fetch(g, cur, a).value)
    ensures Fetch(g, cur, b).Some? ==> Visited(start, dist', Fetch(g, cur, b).value)
  {
    var v := DistanceOf(dist, cur) + 1;
    var q1, d1, p1 := EnqueueStep(g, start, queue, dist, parent, cur, a);
    queue', dist', parent' := EnqueueStep(g, start, q1, d1, p1, cur, b);
    ExtendsTransitive(start, queue, dist, q1, d1, queue', dist');
    AppendedTransitive(queue, q1, d1, queue', dist', v);
    assert d1.Keys <= dist'.Keys;
  }

  /** The four `appendToQueue` calls of one step of the search, for the
      north, south, west and east neighbours in turn. */
  method Visit(g: Grid, start: Cell, queue: seq<Cell>, dist: map<Cell, nat>, ghost parent: map<Cell, Direction>, cur: Cell)
    returns (queue': seq<Cell>, dist': map<Cell, nat>, ghost parent': map<Cell, Direction>)
    requires Rectangular(g) && InBounds(g, cur) && Visited(start, dist, cur)
    requires Founded(g, start, dist, parent)
    requires Distinct(queue) && forall q :: q in queue ==> Visited(start, dist, q)
    ensures Founded(g, start, dist', parent')
    ensures Extends(start, queue, dist, queue', dist')
    ensures Appended(queue, queue', dist', DistanceOf(dist, cur) + 1)
    ensures forall d :: Fetch(g, cur, d).Some? ==> Visited(start, dist', Fetch(g, cur, d).value)
  {
    var q1, d1, p1 := EnqueueTwo(g, start, queue, dist, parent, cur, North, South);
    queue', dist', parent' := EnqueueTwo(g, start, q1, d1, p1, cur, West, East);
    VisitJoin(g, start, queue, dist, q1, d1, queue', dist', cur, DistanceOf(dist, cur) + 1);
  }

  /** The two halves of `Visit` put together. */
  lemma VisitJoin(g: Grid, start: Cell, queue: seq<Cell>, dist: map<Cell, nat>, q1: seq<Cell>, d1: map<Cell, nat>,
                  queue': seq<Cell>, dist': map<Cell, nat>, cur: Cell, v: nat)
    requires Rectangular(g) && InBounds(g, cur)
    requires Extends(start, queue, dist, q1, d1) && Extends(start, q1, d1, queue', dist')
    requires Appended(queue, q1, d1, v) && Appended(q1, queue', dist', v)
    requires forall d :: (d == North || d == South) && Fetch(g, cur, d).Some? ==> Visited(start, d1, Fetch(g, cur, d).value)
    requires forall d :: (d == West || d == East) && Fetch(g, cur, d).Some? ==> Visited(start, dist', Fetch(g, cur, d).value)
    ensures Extends(start, queue, dist, queue', dist')
    ensures Appended(queue, queue', dist', v)
    ensures forall d :: Fetch(g, cur, d).Some? ==> Visited(start, dist', Fetch(g, cur, d).value)
  {
    ExtendsTransitive(start, queue, dist, q1, d1, queue', dist');
    AppendedTransitive(queue, q1, d1, queue', dist', v);
    assert d1.Keys <= dist'.Keys;
  }

  /** The queue holds reached tiles not yet dequeued, once each. */
  ghost predicate Queued(g: Grid, start: Cell, queue: seq<Cell>, dist: map<Cell, nat>, done: set<Cell>) {
    Distinct(queue) && forall q :: q in queue ==> InBounds(g, q) && Visited(start, dist, q) && q !in done
  }

  /** Every reached tile is either dequeued or waiting in the queue. */
  ghost predicate Covered(start: Cell, queue: seq<Cell>, dist: map<Cell, nat>, done: set<Cell>) {
    forall k :: Visited(start, dist, k) ==> k in done || k in queue
  }

  /** The dequeued tiles are reached, and `maxDistance` exceeds their
      distances. */
  ghost predicate Below(g: Grid, start: Cell, dist: map<Cell, nat>, done: set<Cell>, maxDistance: int) {
    forall p :: p in done ==> Visited(start, dist, p) && InBounds(g, p) && DistanceOf(dist, p) + 1 <= maxDistance
  }

  /** The neighbours of every dequeued tile are reached. */
  ghost predicate Closed(g: Grid, start: Cell, dist: map<Cell, nat>, done: set<Cell>)
    requires Rectangular(g)
  {
    forall p :: p in done ==> NeighboursReached(g, start, dist, p)
  }

  /** `p` is in the grid and every connected neighbour of it is reached. */
  ghost predicate NeighboursReached(g: Grid, start: Cell, dist: map<Cell, nat>, p: Cell)
    requires Rectangular(g)
  {
    InBounds(g, p) && forall d :: Fetch(g, p, d).Some? ==> Visited(start, dist, Fetch(g, p, d).value)
  }

  /** Some dequeued tile attains `maxDistance`, unless nothing has been. */
  ghost predicate Attained(dist: map<Cell, nat>, done: set<Cell>, maxDistance: int) {
    maxDistance == 0 || exists p :: p in done && DistanceOf(dist, p) + 1 == maxDistance
  }

  /** The loop invariant of the search. */
  ghost predicate Searching(g: Grid, start: Cell, queue: seq<Cell>, dist: map<Cell, nat>, parent: map<Cell, Direction>,
                            done: set<Cell>, maxDistance: int)
    requires Rectangular(g)
  {
    Founded(g, start, dist, parent) && maxDistance >= 0 && Queued(g, start, queue, dist, done) &&
    Covered(start, queue, dist, done) && Below(g, start, dist, done, maxDistance) &&
    Closed(g, start, dist, done) && Attained(dist, done, maxDistance) && (queue == [] ==> done != {})
  }

  /** Queued distances never decrease from front to back. */
  ghost predicate Ascending(queue: seq<Cell>, dist: map<Cell, nat>) {
    forall i, j :: 0 <= i < j < |queue| ==> DistanceOf(dist, queue[i]) <= DistanceOf(dist, queue[j])
  }

  /** No queued distance exceeds the front's by more than one. */
  ghost predicate Narrow(queue: seq<Cell>, dist: map<Cell, nat>) {
    forall i :: 0 <= i < |queue| ==> DistanceOf(dist, queue[i]) <= DistanceOf(dist, queue[0]) + 1
  }

  /** Every connected neighbour of `p` lies at most one step farther. */
  ghost predicate NeighboursNear(g: Grid, dist: map<Cell, nat>, p: Cell)
    requires Rectangular(g)
  {
    InBounds(g, p) && forall d :: Fetch(g, p, d).Some? ==> DistanceOf(dist, Fetch(g, p, d).value) <= DistanceOf(dist, p) + 1
  }

  /** The breadth-first order of the search: the queue holds at most two
      consecutive distances in order, no dequeued tile lies farther than the
      front, and the neighbours of dequeued tiles are at most one step
      farther than them. */
  ghost predicate Layered(g: Grid, queue: seq<Cell>, dist: map<Cell, nat>, done: set<Cell>)
    requires Rectangular(g)
  {
    Ascending(queue, dist) && Narrow(queue, dist) &&
    (forall p :: p in done ==> |queue| == 0 || DistanceOf(dist, p) <= DistanceOf(dist, queue[0])) &&
    (forall p :: p in done ==> NeighboursNear(g, dist, p))
  }

  /** `dist'` keeps every distance of `dist` and still has none for the start. */
  ghost predicate Keeps(start: Cell, dist: map<Cell, nat>, dist': map<Cell, nat>) {
    start !in dist' && forall k :: k in dist ==> k in dist' && dist'[k] == dist[k]
  }

  lemma KeptDistance(start: Cell, dist: map<Cell, nat>, dist': map<Cell, nat>, k: Cell)
    requires Keeps(start, dist, dist') && Visited(start, dist, k)
    ensures DistanceOf(dist', k) == DistanceOf(dist, k)
  {
  }

  /** After a round the queue is still in ascending order. */
  lemma LayerAscending(start: Cell, queue: seq<Cell>, dist: map<Cell, nat>, queue': seq<Cell>, dist': map<Cell, nat>)
    requires |queue| > 0 && Ascending(queue, dist) && Narrow(queue, dist)
    requires forall q :: q in queue ==> Visited(start, dist, q)
    requires Keeps(start, dist, dist') && Appended(queue[1..], queue', dist', DistanceOf(dist, queue[0]) + 1)
    ensures Ascending(queue', dist')
    ensures |queue'| > 0 ==> DistanceOf(dist, queue[0]) <= DistanceOf(dist', queue'[0])
    ensures forall i :: 0 <= i < |queue'| ==> DistanceOf(dist', queue'[i]) <= DistanceOf(dist, queue[0]) + 1
  {
    var r := |queue| - 1;
    forall i | 0 <= i < r
      ensures DistanceOf(dist', queue'[i]) == DistanceOf(dist, queue[i + 1])
    {
      assert queue'[i] == queue[1..][i] == queue[i + 1];
      assert queue[i + 1] in queue;
      KeptDistance(start, dist, dist', queue[i + 1]);
    }
    forall i, j | 0 <= i < j < |queue'|
      ensures DistanceOf(dist', queue'[i]) <= DistanceOf(dist', queue'[j])
    {
      if j < r {
        assert DistanceOf(dist, queue[i + 1]) <= DistanceOf(dist, queue[j + 1]);
      } else if i < r {
        assert DistanceOf(dist, queue[i + 1]) <= DistanceOf(dist, queue[0]) + 1;
      }
    }
    if |queue'| > 0 && r > 0 {
      assert DistanceOf(dist, queue[0]) <= DistanceOf(dist, queue[1]);
    }
    forall i | 0 <= i < |queue'|
      ensures DistanceOf(dist', queue'[i]) <= DistanceOf(dist, queue[0]) + 1
    {
      if i < r {
        assert DistanceOf(dist, queue[i + 1]) <= DistanceOf(dist, queue[0]) + 1;
      }
    }
  }

  /** The dequeued tile's neighbours lie at most one step farther: each was
      dequeued already, is still queued, or has just been given one more than
      the tile's distance. */
  lemma LayerNear(g: Grid, start: Cell, queue: seq<Cell>, dist: map<Cell, nat>, done: set<Cell>,
                  queue': seq<Cell>, dist': map<Cell, nat>)
    requires Rectangular(g) && |queue| > 0 && InBounds(g, queue[0])
    requires Layered(g, queue, dist, done) && Covered(start, queue, dist, done)
    requires forall q :: q in queue ==> Visited(start, dist, q)
    requires Keeps(start, dist, dist') && Appended(queue[1..], queue', dist', DistanceOf(dist, queue[0]) + 1)
    requires forall k :: k in dist' && k !in dist ==> k in queue'
    requires forall d :: Fetch(g, queue[0], d).Some? ==> Visited(start, dist', Fetch(g, queue[0], d).value)
    ensures NeighboursNear(g, dist', queue[0])
  {
    var cur := queue[0];
    assert cur in queue;
    KeptDistance(start, dist, dist', cur);
    forall d | Fetch(g, cur, d).Some?
      ensures DistanceOf(dist', Fetch(g, cur, d).value) <= DistanceOf(dist', cur) + 1
    {
      var n := Fetch(g, cur, d).value;
      if Visited(start, dist, n) {
        KeptDistance(start, dist, dist', n);
        if n !in done {
          assert n in queue;
          var i :| 0 <= i < |queue| && queue[i] == n;
        }
      } else {
        assert n in queue';
        var i :| 0 <= i < |queue'| && queue'[i] == n;
        if i < |queue| - 1 {
          assert false;
        }
      }
    }
  }

  /** One round keeps the breadth-first order. */
  lemma LayerStep(g: Grid, start: Cell, queue: seq<Cell>, dist: map<Cell, nat>, done: set<Cell>,
                  queue': seq<Cell>, dist': map<Cell, nat>)
    requires Rectangular(g) && |queue| > 0 && InBounds(g, queue[0])
    requires Layered(g, queue, dist, done) && Covered(start, queue, dist, done)
    requires forall q :: q in queue ==> Visited(start, dist, q)
    requires forall p :: p in done ==> Visited(start, dist, p) && NeighboursReached(g, start, dist, p)
    requires Keeps(start, dist, dist') && Appended(queue[1..], queue', dist', DistanceOf(dist, queue[0]) + 1)
    requires forall k :: k in dist' && k !in dist ==> k in queue'
    requires forall d :: Fetch(g, queue[0], d).Some? ==> Visited(start, dist', Fetch(g, queue[0], d).value)
    ensures Layered(g, queue', dist', done + {queue[0]})
  {
    var cur := queue[0];
    assert cur in queue;
    LayerAscending(start, queue, dist, queue', dist');
    LayerNear(g, start, queue, dist, done, queue', dist');
    KeptDistance(start, dist, dist', cur);
    forall p | p in done
      ensures DistanceOf(dist', p) == DistanceOf(dist, p) && NeighboursNear(g, dist', p)
    {
      KeptDistance(start, dist, dist', p);
      NearKept(g, start, dist, dist', p);
    }
  }

  /** A dequeued tile whose neighbours are all reached keeps them near. */
  lemma NearKept(g: Grid, start: Cell, dist: map<Cell, nat>, dist': map<Cell, nat>, p: Cell)
    requires Rectangular(g) && Keeps(start, dist, dist') && Visited(start, dist, p)
    requires NeighboursReached(g, start, dist, p) && NeighboursNear(g, dist, p)
    ensures NeighboursNear(g, dist', p)
  {
    KeptDistance(start, dist, dist', p);
    forall d | Fetch(g, p, d).Some?
      ensures DistanceOf(dist', Fetch(g, p, d).value) <= DistanceOf(dist', p) + 1
    {
      KeptDistance(start, dist, dist', Fetch(g, p, d).value);
    }
  }

  lemma Dequeue(queue: seq<Cell>)
    requires |queue| > 0 && Distinct(queue)
    ensures Distinct(queue[1..])
    ensures forall q :: q in queue[1..] <==> q in queue && q != queue[0]
  {
    forall q | q in queue && q != queue[0] ensures q in queue[1..] {
      var i :| 0 <= i < |queue| && queue[i] == q;
      assert queue[1..][i - 1] == q;
    }
    forall q | q in queue[1..] ensures q in queue && q != queue[0] {
      var i :| 0 <= i < |queue[1..]| && queue[1..][i] == q;
      assert queue[i + 1] == q;
    }
  }

  lemma StepQueued(g: Grid, start: Cell, queue: seq<Cell>, dist: map<Cell, nat>, done: set<Cell>, maxDistance: int,
                   queue': seq<Cell>, dist': map<Cell, nat>, parent': map<Cell, Direction>)
    requires Rectangular(g) && |queue| > 0
    requires Queued(g, start, queue, dist, done) && Below(g, start, dist, done, maxDistance)
    requires Founded(g, start, dist', parent') && Extends(start, queue[1..], dist, queue', dist')
    ensures Queued(g, start, queue', dist', done + {queue[0]})
  {
    Dequeue(queue);
  }

  lemma StepCovered(start: Cell, queue: seq<Cell>, dist: map<Cell, nat>, done: set<Cell>,
                    queue': seq<Cell>, dist': map<Cell, nat>)
    requires |queue| > 0 && Distinct(queue) && Covered(start, queue, dist, done)
    requires Extends(start, queue[1..], dist, queue', dist')
    ensures Covered(start, queue', dist', done + {queue[0]})
  {
    Dequeue(queue);
  }

  lemma StepBelow(g: Grid, start: Cell, dist: map<Cell, nat>, done: set<Cell>, maxDistance: int,
                  cur: Cell, queue': seq<Cell>, dist': map<Cell, nat>, rest: seq<Cell>)
    requires Below(g, start, dist, done, maxDistance) && Visited(start, dist, cur) && InBounds(g, cur)
    requires Extends(start, rest, dist, queue', dist') && start !in dist'
    ensures var distance := DistanceOf(dist, cur) + 1;
      Below(g, start, dist', done + {cur}, if distance > maxDistance then distance else maxDistance)
  {
    var distance := DistanceOf(dist, cur) + 1;
    var m := if distance > maxDistance then distance else maxDistance;
    forall p | p in done + {cur}
      ensures Visited(start, dist', p) && InBounds(g, p) && DistanceOf(dist', p) + 1 <= m
    {
      assert DistanceOf(dist', p) == DistanceOf(dist, p);
    }
  }

  lemma StepClosed(g: Grid, start: Cell, dist: map<Cell, nat>, done: set<Cell>,
                   cur: Cell, queue': seq<Cell>, dist': map<Cell, nat>, rest: seq<Cell>)
    requires Rectangular(g) && InBounds(g, cur) && Closed(g, start, dist, done)
    requires Extends(start, rest, dist, queue', dist')
    requires forall d :: Fetch(g, cur, d).Some? ==> Visited(start, dist', Fetch(g, cur, d).value)
    ensures Closed(g, start, dist', done + {cur})
  {
    forall p | p in done + {cur}
      ensures NeighboursReached(g, start, dist', p)
    {
      if p != cur {
        assert NeighboursReached(g, start, dist, p);
      }
    }
  }

  lemma StepAttained(g: Grid, start: Cell, dist: map<Cell, nat>, done: set<Cell>, maxDistance: int,
                     cur: Cell, queue': seq<Cell>, dist': map<Cell, nat>, rest: seq<Cell>)
    requires Attained(dist, done, maxDistance) && Below(g, start, dist, done, maxDistance)
    requires Visited(start, dist, cur) && Extends(start, rest, dist, queue', dist') && start !in dist'
    ensures var distance := DistanceOf(dist, cur) + 1;
      Attained(dist', done + {cur}, if distance > maxDistance then distance else maxDistance)
  {
    var distance := DistanceOf(dist, cur) + 1;
    assert DistanceOf(dist', cur) == DistanceOf(dist, cur);
    if distance <= maxDistance && maxDistance != 0 {
      var p :| p in done && DistanceOf(dist, p) + 1 == maxDistance;
      assert DistanceOf(dist', p) == DistanceOf(dist, p);
    }
  }

  /** Dequeuing a tile and visiting its neighbours keeps the invariant. */
  lemma SearchStep(g: Grid, start: Cell, queue: seq<Cell>, dist: map<Cell, nat>, parent: map<Cell, Direction>,
                   done: set<Cell>, maxDistance: int, queue': seq<Cell>, dist': map<Cell, nat>, parent': map<Cell, Direction>)
    requires Rectangular(g) && |queue| > 0
    requires Searching(g, start, queue, dist, parent, done, maxDistance)
    requires Founded(g, start, dist', parent') && Extends(start, queue[1..], dist, queue', dist')
    requires forall d :: Fetch(g, queue[0], d).Some? ==> Visited(start, dist', Fetch(g, queue[0], d).value)
    ensures var distance := DistanceOf(dist, queue[0]) + 1;
      Searching(g, start, queue', dist', parent', done + {queue[0]},
                if distance > maxDistance then distance else maxDistance)
  {
    var cur := queue[0];
    assert cur in queue;
    StepQueued(g, start, queue, dist, done, maxDistance, queue', dist', parent');
    StepCovered(start, queue, dist, done, queue', dist');
    StepBelow(g, start, dist, done, maxDistance, cur, queue', dist', queue[1..]);
    StepClosed(g, start, dist, done, cur, queue', dist', queue[1..]);
    StepAttained(g, start, dist, done, maxDistance, cur, queue', dist', queue[1..]);
  }

  /** Each round either reaches new tiles, all in the grid, or shortens the
      queue: the measure of the search. */
  lemma SearchShrinks(g: Grid, start: Cell, rest: seq<Cell>, dist: map<Cell, nat>, parent': map<Cell, Direction>,
                      queue': seq<Cell>, dist': map<Cell, nat>)
    requires Rectangular(g) && Founded(g, start, dist', parent') && Extends(start, rest, dist, queue', dist')
    ensures (AllCells(g) - dist'.Keys < AllCells(g) - dist.Keys) || (dist'.Keys == dist.Keys && queue' == rest)
  {
    if dist'.Keys != dist.Keys {
      var k :| k in dist'.Keys && k !in dist.Keys;
      assert k in AllCells(g) by {
        assert InBounds(g, k);
      }
      assert k in AllCells(g) - dist.Keys && k !in AllCells(g) - dist'.Keys;
    }
  }

  /** When the queue runs empty every reached tile has been dequeued. */
  lemma SearchDone(g: Grid, start: Cell, dist: map<Cell, nat>, parent: map<Cell, Direction>, done: set<Cell>, maxDistance: int)
    requires Rectangular(g) && Searching(g, start, [], dist, parent, done, maxDistance)
    ensures maxDistance >= 1
    ensures forall k :: k in dist ==> exists d :: HasParent(g, start, dist, k, d)
    ensures forall k, d :: Visited(start, dist, k) && InBounds(g, k) && Fetch(g, k, d).Some? ==>
      Visited(start, dist, Fetch(g, k, d).value)
    ensures forall k :: k in dist ==> dist[k] <= maxDistance - 1
    ensures maxDistance == 1 || exists k :: k in dist && dist[k] == maxDistance - 1
  {
    DoneParents(g, start, dist, parent);
    DoneClosed(g, start, dist, done);
    DoneBounds(g, start, dist, done, maxDistance);
  }

  lemma DoneParents(g: Grid, start: Cell, dist: map<Cell, nat>, parent: map<Cell, Direction>)
    requires Rectangular(g) && Founded(g, start, dist, parent)
    ensures forall k :: k in dist ==> exists d :: HasParent(g, start, dist, k, d)
  {
    forall k | k in dist
      ensures exists d :: HasParent(g, start, dist, k, d)
    {
      assert HasParent(g, start, dist, k, parent[k]);
    }
  }

  lemma DoneClosed(g: Grid, start: Cell, dist: map<Cell, nat>, done: set<Cell>)
    requires Rectangular(g) && Closed(g, start, dist, done) && Covered(start, [], dist, done)
    ensures forall k, d :: Visited(start, dist, k) && InBounds(g, k) && Fetch(g, k, d).Some? ==>
      Visited(start, dist, Fetch(g, k, d).value)
  {
    forall k, d | Visited(start, dist, k) && InBounds(g, k) && Fetch(g, k, d).Some?
      ensures Visited(start, dist, Fetch(g, k, d).value)
    {
      assert k in done;
      assert NeighboursReached(g, start, dist, k);
    }
  }

  /** With the queue empty, every reached tile's neighbours lie at most one
      step farther. */
  lemma DoneNear(g: Grid, start: Cell, dist: map<Cell, nat>, done: set<Cell>)
    requires Rectangular(g) && Layered(g, [], dist, done) && Covered(start, [], dist, done)
    ensures forall k, d :: Visited(start, dist, k) && InBounds(g, k) && Fetch(g, k, d).Some? ==>
      DistanceOf(dist, Fetch(g, k, d).value) <= DistanceOf(dist, k) + 1
  {
    forall k, d | Visited(start, dist, k) && InBounds(g, k) && Fetch(g, k, d).Some?
      ensures DistanceOf(dist, Fetch(g, k, d).value) <= DistanceOf(dist, k) + 1
    {
      assert k in done;
      assert NeighboursNear(g, dist, k);
    }
  }

  lemma DoneBounds(g: Grid, start: Cell, dist: map<Cell, nat>, done: set<Cell>, maxDistance: int)
    requires Covered(start, [], dist, done) && Below(g, start, dist, done, maxDistance)
    requires Attained(dist, done, maxDistance) && done != {}
    ensures maxDistance >= 1
    ensures forall k :: k in dist ==> dist[k] <= maxDistance - 1
    ensures maxDistance == 1 || exists k :: k in dist && dist[k] == maxDistance - 1
  {
    var x :| x in done;
    assert DistanceOf(dist, x) + 1 <= maxDistance;
    forall k | k in dist ensures dist[k] <= maxDistance - 1 {
      assert k in done;
    }
    if maxDistance != 1 {
      var p :| p in done && DistanceOf(dist, p) + 1 == maxDistance;
      assert p in dist;
    }
  }

  /** What the search from `start` leaves behind: distances of ordinary
      in-grid tiles, each with a parent one step closer; the reached tiles
      closed under the neighbour relation, no neighbour more than one step
      farther; `farthest` the largest distance, or 0 when nothing but the
      start was reached. Together these make every distance the length of the
      shortest walk (`TraceReached`, `ReachedByTrace`), so only one labelling
      satisfies it (`ExploredUnique`). */
  ghost predicate Explored(g: Grid, start: Cell, dist: map<Cell, nat>, farthest: int)
    requires Rectangular(g)
  {
    start !in dist &&
    (forall k :: k in dist ==> InBounds(g, k) && At(g, k) != Start && dist[k] >= 1) &&
    Parented(g, start, dist) && Spread(g, start, dist) && farthest >= 0 &&
    (forall k :: k in dist ==> dist[k] <= farthest) &&
    (farthest == 0 || exists k :: k in dist && dist[k] == farthest)
  }

  /** Every tile with a distance has a parent one step closer. */
  ghost predicate Parented(g: Grid, start: Cell, dist: map<Cell, nat>)
    requires Rectangular(g)
  {
    forall k :: k in dist ==> exists d :: HasParent(g, start, dist, k, d)
  }

  /** The reached tiles are closed under connection, and a connected
      neighbour lies at most one step farther. */
  ghost predicate Spread(g: Grid, start: Cell, dist: map<Cell, nat>)
    requires Rectangular(g)
  {
    (forall k, d :: Visited(start, dist, k) && InBounds(g, k) && Fetch(g, k, d).Some? ==>
      Visited(start, dist, Fetch(g, k, d).value)) &&
    (forall k, d :: Visited(start, dist, k) && InBounds(g, k) && Fetch(g, k, d).Some? ==>
      DistanceOf(dist, Fetch(g, k, d).value) <= DistanceOf(dist, k) + 1)
  }

  /** The tile a walk from `k` ends on when it moves, for each direction of
      `ds` in turn, to the connected neighbour that way; None when some step
      has no connected neighbour. */
  function Trace(g: Grid, k: Cell, ds: seq<Direction>): (r: Option<Cell>)
    requires Rectangular(g) && InBounds(g, k)
    ensures r.Some? ==> InBounds(g, r.value)
    ensures r.Some? && |ds| > 0 ==> At(g, r.value) != Start
    decreases |ds|
  {
    if ds == [] then Some(k)
    else match Trace(g, k, ds[..|ds| - 1])
      case None => None
      case Some(p) => Fetch(g, p, ds[|ds| - 1])
  }

  /** A walk one direction longer moves on from where the shorter one ended. */
  lemma TraceSnoc(g: Grid, k: Cell, ds: seq<Direction>, d: Direction)
    requires Rectangular(g) && InBounds(g, k)
    ensures Trace(g, k, ds + [d]) == if Trace(g, k, ds).None? then None else Fetch(g, Trace(g, k, ds).value, d)
  {
    assert (ds + [d])[..|ds|] == ds;
  }

  /** No walk from the start is shorter than the distance of its last tile,
      and every such walk ends on a reached tile. */
  lemma {:induction false} TraceReached(g: Grid, start: Cell, dist: map<Cell, nat>, ds: seq<Direction>, k: Cell)
    requires Rectangular(g) && InBounds(g, start) && start !in dist && Spread(g, start, dist)
    requires Trace(g, start, ds) == Some(k)
    ensures Visited(start, dist, k) && DistanceOf(dist, k) <= |ds|
    decreases |ds|
  {
    if ds != [] {
      var pre, d := ds[..|ds| - 1], ds[|ds| - 1];
      assert ds == pre + [d];
      TraceSnoc(g, start, pre, d);
      var p := Trace(g, start, pre).value;
      TraceReached(g, start, dist, pre, p);
      SpreadAt(g, start, dist, p, d);
    }
  }

  /** Every reached tile ends a walk from the start exactly as long as its
      distance. */
  lemma {:induction false} ReachedByTrace(g: Grid, start: Cell, dist: map<Cell, nat>, k: Cell)
    requires Rectangular(g) && InBounds(g, start) && start !in dist && Parented(g, start, dist)
    requires k in dist
    ensures exists ds :: Trace(g, start, ds) == Some(k) && |ds| == dist[k]
    decreases dist[k]
  {
    var d :| HasParent(g, start, dist, k, d);
    var p := Step(k, Opposite(d));
    assert Fetch(g, p, d) == Some(k) && DistanceOf(dist, p) + 1 == dist[k];
    if p == start {
      ExtendWalk(g, start, [], p, d, k, dist[k]);
    } else {
      assert p in dist && dist[p] < dist[k];
      ReachedByTrace(g, start, dist, p);
      var ds :| Trace(g, start, ds) == Some(p) && |ds| == dist[p];
      ExtendWalk(g, start, ds, p, d, k, dist[k]);
    }
  }

  /** A walk to `p` followed by a step to its neighbour `k` is a walk to `k`. */
  lemma ExtendWalk(g: Grid, start: Cell, ds: seq<Direction>, p: Cell, d: Direction, k: Cell, n: nat)
    requires Rectangular(g) && InBounds(g, start) && Trace(g, start, ds) == Some(p)
    requires Fetch(g, p, d) == Some(k) && |ds| + 1 == n
    ensures exists ds' :: Trace(g, start, ds') == Some(k) && |ds'| == n
  {
    TraceSnoc(g, start, ds, d);
    TraceWitness(g, start, ds + [d], k, n);
  }

  lemma TraceWitness(g: Grid, start: Cell, ds: seq<Direction>, k: Cell, n: nat)
    requires Rectangular(g) && InBounds(g, start) && Trace(g, start, ds) == Some(k) && |ds| == n
    ensures exists ds' :: Trace(g, start, ds') == Some(k) && |ds'| == n
  {
  }

  /** One step of `Spread`: a connected neighbour of a reached tile is
      reached, at most one step farther. */
  lemma SpreadAt(g: Grid, start: Cell, dist: map<Cell, nat>, k: Cell, d: Direction)
    requires Rectangular(g) && Spread(g, start, dist)
    requires Visited(start, dist, k) && InBounds(g, k) && Fetch(g, k, d).Some?
    ensures Visited(start, dist, Fetch(g, k, d).value)
    ensures DistanceOf(dist, Fetch(g, k, d).value) <= DistanceOf(dist, k) + 1
  {
  }

  /** The outcome of the search is determined by the grid and the start: two
      labellings that both satisfy `Explored` are equal, and so are their
      farthest distances. */
  lemma ExploredUnique(g: Grid, start: Cell, d1: map<Cell, nat>, f1: int, d2: map<Cell, nat>, f2: int)
    requires Rectangular(g) && InBounds(g, start)
    requires Explored(g, start, d1, f1) && Explored(g, start, d2, f2)
    ensures d1 == d2 && f1 == f2
  {
    Shorter(g, start, d1, f1, d2, f2);
    Shorter(g, start, d2, f2, d1, f1);
    MutuallyBelow(d1, d2);
    FarthestUnique(d1, f1, f2);
  }

  /** Two maps each of whose entries the other holds at most as large are equal. */
  lemma MutuallyBelow(d1: map<Cell, nat>, d2: map<Cell, nat>)
    requires forall k :: k in d1 ==> k in d2 && d2[k] <= d1[k]
    requires forall k :: k in d2 ==> k in d1 && d1[k] <= d2[k]
    ensures d1 == d2
  {
    assert d1.Keys == d2.Keys;
  }

  /** Every tile `d1` reaches is reached by `d2` no farther away. */
  lemma Shorter(g: Grid, start: Cell, d1: map<Cell, nat>, f1: int, d2: map<Cell, nat>, f2: int)
    requires Rectangular(g) && InBounds(g, start)
    requires Explored(g, start, d1, f1) && Explored(g, start, d2, f2)
    ensures forall k :: k in d1 ==> k in d2 && d2[k] <= d1[k]
  {
    forall k | k in d1 ensures k in d2 && d2[k] <= d1[k] {
      ShorterIn(g, start, d1, f1, d2, f2, k);
    }
  }

  /** The largest distance of a map is determined by the map. */
  lemma FarthestUnique(dist: map<Cell, nat>, f1: int, f2: int)
    requires forall k :: k in dist ==> dist[k] >= 1
    requires f1 >= 0 && (forall k :: k in dist ==> dist[k] <= f1) && (f1 == 0 || exists k :: k in dist && dist[k] == f1)
    requires f2 >= 0 && (forall k :: k in dist ==> dist[k] <= f2) && (f2 == 0 || exists k :: k in dist && dist[k] == f2)
    ensures f1 == f2
  {
    if dist != map[] {
      var k :| k in dist;
      assert f1 >= dist[k] >= 1 && f2 >= dist[k];
      var k1 :| k1 in dist && dist[k1] == f1;
      var k2 :| k2 in dist && dist[k2] == f2;
      assert f1 >= dist[k2] && f2 >= dist[k1];
    }
  }

  /** A tile `d1` reaches is reached by `d2` no farther away. */
  lemma ShorterIn(g: Grid, start: Cell, d1: map<Cell, nat>, f1: int, d2: map<Cell, nat>, f2: int, k: Cell)
    requires Rectangular(g) && InBounds(g, start)
    requires Explored(g, start, d1, f1) && Explored(g, start, d2, f2) && k in d1
    ensures k in d2 && d2[k] <= d1[k]
  {
    ReachedByTrace(g, start, d1, k);
    var ds :| Trace(g, start, ds) == Some(k) && |ds| == d1[k];
    TraceReached(g, start, d2, ds, k);
  }

  /** The loop `S7` / `LJ`. */
  const ExampleLoopGrid: Grid := [[Start, Elbow7], [ElbowL, ElbowJ]]

  /** The walks east, south, and east then south from its start. */
  lemma ExampleWalks()
    ensures Rectangular(ExampleLoopGrid) && InBounds(ExampleLoopGrid, (0, 0))
    ensures Trace(ExampleLoopGrid, (0, 0), [East]) == Some((0, 1))
    ensures Trace(ExampleLoopGrid, (0, 0), [South]) == Some((1, 0))
    ensures Trace(ExampleLoopGrid, (0, 0), [East, South]) == Some((1, 1))
  {
    assert [East, South] == [East] + [South];
    TraceSnoc(ExampleLoopGrid, (0, 0), [East], South);
  }

  /** The far corner is entered only from a neighbour of the start, so it
      lies at least two steps away. */
  lemma ExampleCorner(dist: map<Cell, nat>, d: Direction)
    requires Rectangular(ExampleLoopGrid) && (0, 0) !in dist && forall k :: k in dist ==> dist[k] >= 1
    requires HasParent(ExampleLoopGrid, (0, 0), dist, (1, 1), d)
    ensures dist[(1, 1)] >= 2
  {
    var p := Step((1, 1), Opposite(d));
    assert p == (0, 1) || p == (1, 0) by {
      match d
      case North =>
      case South =>
      case West =>
      case East =>
    }
    assert p in dist;
  }

  /** The tiles of the loop other than the start. */
  lemma ExampleCells(k: Cell)
    requires Rectangular(ExampleLoopGrid) && InBounds(ExampleLoopGrid, k) && At(ExampleLoopGrid, k) != Start
    ensures k in {(0, 1), (1, 0), (1, 1)}
  {
  }

  /** The walks of length one and two reach the three other tiles. */
  lemma ExampleReached(dist: map<Cell, nat>, farthest: int)
    requires Explored(ExampleLoopGrid, (0, 0), dist, farthest)
    ensures (0, 1) in dist && (1, 0) in dist && (1, 1) in dist
    ensures dist[(0, 1)] <= 1 && dist[(1, 0)] <= 1 && dist[(1, 1)] <= 2
  {
    ExampleWalks();
    TraceReached(ExampleLoopGrid, (0, 0), dist, [East], (0, 1));
    TraceReached(ExampleLoopGrid, (0, 0), dist, [South], (1, 0));
    TraceReached(ExampleLoopGrid, (0, 0), dist, [East, South], (1, 1));
  }

  /** On the loop `S7` / `LJ` the search reaches both neighbours of the start
      at 1 and the far corner at 2, the farthest distance. */
  lemma ExampleLoop(dist: map<Cell, nat>, farthest: int)
    requires Explored(ExampleLoopGrid, (0, 0), dist, farthest)
    ensures dist == map[(0, 1) := 1, (1, 0) := 1, (1, 1) := 2] && farthest == 2
  {
    ExampleReached(dist, farthest);
    var d :| HasParent(ExampleLoopGrid, (0, 0), dist, (1, 1), d);
    ExampleCorner(dist, d);
    ExampleKeys(dist, farthest);
    ExampleMap(dist, farthest);
  }

  /** Only the three tiles other than the start can have a distance. */
  lemma ExampleKeys(dist: map<Cell, nat>, farthest: int)
    requires Explored(ExampleLoopGrid, (0, 0), dist, farthest)
    ensures forall k :: k in dist ==> k in {(0, 1), (1, 0), (1, 1)}
  {
    forall k | k in dist ensures k in {(0, 1), (1, 0), (1, 1)} {
      ExampleCells(k);
    }
  }

  lemma ExampleMap(dist: map<Cell, nat>, farthest: int)
    requires forall k :: k in dist ==> k in {(0, 1), (1, 0), (1, 1)} && 1 <= dist[k] <= farthest
    requires (0, 1) in dist && (1, 0) in dist && (1, 1) in dist
    requires dist[(0, 1)] <= 1 && dist[(1, 0)] <= 1 && dist[(1, 1)] == 2
    requires farthest == 0 || exists k :: k in dist && dist[k] == farthest
    ensures dist == map[(0, 1) := 1, (1, 0) := 1, (1, 1) := 2] && farthest == 2
  {
    assert dist.Keys == {(0, 1), (1, 0), (1, 1)};
  }

  /** The first start tile in reading order. */
  ghost predicate FirstStart(g: Grid, s: Cell)
    requires Rectangular(g)
  {
    InBounds(g, s) && At(g, s) == Start &&
    forall k :: InBounds(g, k) && At(g, k) == Start ==> s.0 < k.0 || (s.0 == k.0 && s.1 <= k.1)
  }

  /** Some tile is the start tile. */
  ghost predicate HasStart(g: Grid)
    requires Rectangular(g)
  {
    exists k :: InBounds(g, k) && At(g, k) == Start
  }

  /** `computeGraph`: the breadth-first search from the start tile. It returns
      the largest distance reached (the program's `maxDistance - 1`) and the
      distances. Every tile is enqueued at most once, which bounds the search.
      The queue holds at most two consecutive distances in ascending order
      (`Layered`), so at the end the reached tiles are closed under the
      neighbour relation, each has a parent one step closer and no neighbour
      lies more than one step farther. */
  method ComputeGraph(g: Grid, start: Cell) returns (farthest: int, dist: map<Cell, nat>)
    requires Rectangular(g) && InBounds(g, start) && At(g, start) == Start
    ensures Explored(g, start, dist, farthest)
  {
    dist := map[];
    var queue := [start];
    var maxDistance := 0;
    ghost var parent: map<Cell, Direction> := map[];
    ghost var done: set<Cell> := {};
    while |queue| > 0
      invariant Searching(g, start, queue, dist, parent, done, maxDistance)
      invariant Layered(g, queue, dist, done)
      decreases AllCells(g) - dist.Keys, |queue|
    {
      var cur := queue[0];
      queue, dist, parent, maxDistance := SearchIteration(g, start, queue, dist, parent, done, maxDistance);
      done := done + {cur};
    }
    SearchDone(g, start, dist, parent, done, maxDistance);
    DoneNear(g, start, dist, done);
    farthest := maxDistance - 1;
  }

  /** One iteration of the search loop: dequeue the front tile, raise
      `maxDistance` to one past its distance, and enqueue its neighbours. The
      loop invariant is kept, and either new tiles are reached or the queue
      shrinks. */
  method SearchIteration(g: Grid, start: Cell, queue: seq<Cell>, dist: map<Cell, nat>, ghost parent: map<Cell, Direction>,
                         ghost done: set<Cell>, maxDistance: int)
    returns (queue': seq<Cell>, dist': map<Cell, nat>, ghost parent': map<Cell, Direction>, maxDistance': int)
    requires Rectangular(g) && |queue| > 0 && Searching(g, start, queue, dist, parent, done, maxDistance)
    requires Layered(g, queue, dist, done)
    ensures Searching(g, start, queue', dist', parent', done + {queue[0]}, maxDistance')
    ensures Layered(g, queue', dist', done + {queue[0]})
    ensures (AllCells(g) - dist'.Keys < AllCells(g) - dist.Keys) || (dist'.Keys == dist.Keys && |queue'| < |queue|)
  {
    var cur := queue[0];
    var rest := queue[1..];
    var distance := DistanceOf(dist, cur) + 1;
    maxDistance' := maxDistance;
    if distance > maxDistance {
      maxDistance' := distance;
    }
    QueueTail(g, start, queue, dist, done);
    queue', dist', parent' := Visit(g, start, rest, dist, parent, cur);
    SearchStep(g, start, queue, dist, parent, done, maxDistance, queue', dist', parent');
    SearchShrinks(g, start, rest, dist, parent', queue', dist');
    SearchLayers(g, start, queue, dist, parent, done, maxDistance, queue', dist', parent');
  }

  /** One round of the search keeps the breadth-first order. */
  lemma SearchLayers(g: Grid, start: Cell, queue: seq<Cell>, dist: map<Cell, nat>, parent: map<Cell, Direction>,
                     done: set<Cell>, maxDistance: int, queue': seq<Cell>, dist': map<Cell, nat>, parent': map<Cell, Direction>)
    requires Rectangular(g) && |queue| > 0
    requires Searching(g, start, queue, dist, parent, done, maxDistance) && Layered(g, queue, dist, done)
    requires Founded(g, start, dist', parent') && Extends(start, queue[1..], dist, queue', dist')
    requires Appended(queue[1..], queue', dist', DistanceOf(dist, queue[0]) + 1)
    requires forall d :: Fetch(g, queue[0], d).Some? ==> Visited(start, dist', Fetch(g, queue[0], d).value)
    ensures Layered(g, queue', dist', done + {queue[0]})
  {
    assert queue[0] in queue;
    forall p | p in done
      ensures Visited(start, dist, p) && NeighboursReached(g, start, dist, p)
    {
    }
    LayerStep(g, start, queue, dist, done, queue', dist');
  }

  /** The queue without its front is still distinct and reached. */
  lemma QueueTail(g: Grid, start: Cell, queue: seq<Cell>, dist: map<Cell, nat>, done: set<Cell>)
    requires |queue| > 0 && Queued(g, start, queue, dist, done)
    ensures Distinct(queue[1..]) && forall q :: q in queue[1..] ==> Visited(start, dist, q)
  {
    var rest := queue[1..];
    assert forall i :: 0 <= i < |rest| ==> rest[i] == queue[i + 1];
  }

  function Count(b: bool): nat {
    if b then 1 else 0
  }

  /** The pairs of sides a start tile may join, in the order `getNodeType`
      tries them. */
  const JoinOrder: seq<(Direction, Direction)> :=
    [(North, South), (North, West), (North, East), (South, West), (South, East), (West, East)]

  /** Whether the neighbour on side `d` connects to the start tile. */
  predicate Connects(north: bool, south: bool, west: bool, east: bool, d: Direction) {
    match d
    case North => north
    case South => south
    case West => west
    case East => east
  }

  /** Both sides of a pair connect. */
  predicate BothConnect(north: bool, south: bool, west: bool, east: bool, pair: (Direction, Direction)) {
    Connects(north, south, west, east, pair.0) && Connects(north, south, west, east, pair.1)
  }

  /** A piece opens on exactly the two sides of a pair. */
  predicate Joins(p: Pipe, pair: (Direction, Direction)) {
    forall d :: Opens(p, d) <==> d == pair.0 || d == pair.1
  }

  /** The piece a start tile stands for, given which of its north, south,
      west and east neighbours connect to it: the piece joining the first
      connected pair in the order north-south, north-west, north-east,
      south-west, south-east, west-east. Fewer than two connections panic. */
  function ResolveStart(north: bool, south: bool, west: bool, east: bool): (r: Result<Pipe>)
    ensures r.Ok? <==> Count(north) + Count(south) + Count(west) + Count(east) >= 2
    ensures r.Ok? ==> r.value != Start && r.value != Ground
    ensures r.Ok? ==> (Opens(r.value, North) ==> north) && (Opens(r.value, South) ==> south) &&
                      (Opens(r.value, West) ==> west) && (Opens(r.value, East) ==> east)
    ensures north && south ==> r == Ok(Vertical)
    ensures !(north && south) && north && west ==> r == Ok(ElbowJ)
    ensures !(north && south) && !(north && west) && north && east ==> r == Ok(ElbowL)
    ensures !north && south && west ==> r == Ok(Elbow7)
    ensures !north && !(south && west) && south && east ==> r == Ok(ElbowF)
    ensures !north && !south && west && east ==> r == Ok(Horizontal)
  {
    if north && south then Ok(Vertical)
    else if north && west then Ok(ElbowJ)
    else if north && east then Ok(ElbowL)
    else if south && west then Ok(Elbow7)
    else if south && east then Ok(ElbowF)
    else if west && east then Ok(Horizontal)
    else Fatal("The starting character did not join two fields, which is not expected from the input file.")
  }

  /** The start tile becomes the piece joining the first pair of sides, in
      the order tried, whose neighbours both connect. */
  lemma ResolveStartFirstPair(north: bool, south: bool, west: bool, east: bool) returns (i: nat)
    requires ResolveStart(north, south, west, east).Ok?
    ensures i < |JoinOrder| && Joins(ResolveStart(north, south, west, east).value, JoinOrder[i])
    ensures BothConnect(north, south, west, east, JoinOrder[i])
    ensures forall j :: 0 <= j < i ==> !BothConnect(north, south, west, east, JoinOrder[j])
  {
    if north && south { i := 0; }
    else if north && west { i := 1; }
    else if north && east { i := 2; }
    else if south && west { i := 3; }
    else if south && east { i := 4; }
    else { i := 5; }
  }

  /** `getNodeType`: the piece, with a start tile replaced by the piece its
      connections make it; never the start piece. */
  function NodeType(g: Grid, k: Cell): (r: Result<Pipe>)
    requires Rectangular(g) && InBounds(g, k)
    ensures r.Ok? ==> r.value != Start
    ensures At(g, k) != Start ==> r == Ok(At(g, k))
  {
    if At(g, k) != Start then Ok(At(g, k))
    else ResolveStart(Fetch(g, k, North).Some?, Fetch(g, k, South).Some?, Fetch(g, k, West).Some?, Fetch(g, k, East).Some?)
  }

  /** The piece a start tile resolves to opens only towards connected
      neighbours. */
  lemma StartResolvedOpens(g: Grid, k: Cell, d: Direction)
    requires Rectangular(g) && InBounds(g, k) && At(g, k) == Start
    requires NodeType(g, k).Ok? && Opens(NodeType(g, k).value, d)
    ensures Fetch(g, k, d).Some?
  {
    var north, south := Fetch(g, k, North).Some?, Fetch(g, k, South).Some?;
    var west, east := Fetch(g, k, West).Some?, Fetch(g, k, East).Some?;
    assert NodeType(g, k) == ResolveStart(north, south, west, east);
  }

  /** `isLoopMember`: a start tile or a tile with a positive distance. */
  predicate LoopMember(g: Grid, dist: map<Cell, nat>, k: Cell)
    requires Rectangular(g) && InBounds(g, k)
  {
    At(g, k) == Start || (k in dist && dist[k] > 0)
  }

  function Width(g: Grid): nat
    requires Rectangular(g)
  {
    |g[0]|
  }

  /** The `getNodeType` results along a row. */
  function RowTypes(g: Grid, row: int): (types: seq<Result<Pipe>>)
    requires Rectangular(g) && 0 <= row < |g|
    ensures |types| == Width(g)
  {
    seq(Width(g), j requires 0 <= j < Width(g) => NodeType(g, (row, j)))
  }

  /** The `isLoopMember` results along a row. */
  function RowMembers(g: Grid, dist: map<Cell, nat>, row: int): (member: seq<bool>)
    requires Rectangular(g) && 0 <= row < |g|
    ensures |member| == Width(g)
  {
    seq(Width(g), j requires 0 <= j < Width(g) => LoopMember(g, dist, (row, j)))
  }

  /** The skip loop of `findEnclosedValueCount`: the first column from `j` on
      whose piece is not a dash, or the row's length when it ends in dashes. */
  function SkipDashes(types: seq<Result<Pipe>>, j: nat): (r: Result<nat>)
    requires j <= |types|
    ensures r.Ok? ==> j <= r.value <= |types|
    ensures r.Ok? ==> forall m :: j <= m < r.value ==> types[m] == Ok(Horizontal)
    ensures r.Ok? && r.value < |types| ==> types[r.value].Ok? && types[r.value].value != Horizontal
    ensures r.Fatal? ==> exists m :: j <= m < |types| && types[m].Fatal?
    decreases |types| - j
  {
    if j == |types| then Ok(j)
    else
      var t :- types[j];
      if t != Horizontal then Ok(j) else SkipDashes(types, j + 1)
  }

  /** The tiles from column `j` on that are not on the loop. */
  function OpenTiles(member: seq<bool>, j: nat): (n: nat)
    requires j <= |member|
    ensures n <= |member| - j
    decreases |member| - j
  {
    if j == |member| then 0 else OpenTiles(member, j + 1) + if member[j] then 0 else 1
  }

  lemma {:induction false} OpenTilesMonotone(member: seq<bool>, j: nat, k: nat)
    requires j <= k <= |member|
    ensures OpenTiles(member, k) <= OpenTiles(member, j)
    decreases k - j
  {
    if j < k {
      OpenTilesMonotone(member, j + 1, k);
    }
  }

  /** An L…J or F…7 run runs along the loop without crossing it. */
  predicate Straight(t: Pipe, u: Pipe) {
    (t == ElbowL && u == ElbowJ) || (t == ElbowF && u == Elbow7)
  }

  /** The inner loop of `findEnclosedValueCount` from column `j` of a row,
      given the row's pieces and loop membership: tiles off the loop count
      while `enclosed` is set; a loop `|` toggles it; any other loop piece
      starts a run that skips the dashes after it and toggles the flag unless
      the run is L…J or F…7. A run of dashes up to the end of the row indexes
      past it and panics. */
  function ScanRow(types: seq<Result<Pipe>>, member: seq<bool>, j: nat, enclosed: bool): (r: Result<nat>)
    requires |types| == |member| && j <= |types|
    ensures r.Ok? ==> r.value <= OpenTiles(member, j)
    decreases |types| - j
  {
    if j == |types| then Ok(0)
    else if !member[j] then
      var rest :- ScanRow(types, member, j + 1, enclosed);
      Ok(rest + if enclosed then 1 else 0)
    else
      var t :- types[j];
      if t == Vertical then ScanRow(types, member, j + 1, !enclosed)
      else
        var k :- SkipDashes(types, j + 1);
        if k == |types| then Fatal("index out of range")
        else
          var u := types[k].value;
          var rest :- ScanRow(types, member, k + 1, if Straight(t, u) then enclosed else !enclosed);
          OpenTilesMonotone(member, j, k + 1);
          Ok(rest)
  }

  /** A stretch of row with no loop tiles counts all its tiles when enclosed
      and none otherwise. */
  lemma {:induction false} ScanRowOffLoop(types: seq<Result<Pipe>>, member: seq<bool>, j: nat, enclosed: bool)
    requires |types| == |member| && j <= |types|
    requires forall m :: j <= m < |member| ==> !member[m]
    ensures ScanRow(types, member, j, enclosed) == Ok(if enclosed then |types| - j else 0)
    decreases |types| - j
  {
    if j < |types| {
      ScanRowOffLoop(types, member, j + 1, enclosed);
    }
  }

  /** The skip lands on the first piece after a run of dashes. */
  lemma {:induction false} SkipDashesLands(types: seq<Result<Pipe>>, j: nat, k: nat)
    requires j <= k <= |types|
    requires forall m :: j <= m < k ==> types[m] == Ok(Horizontal)
    requires k < |types| ==> types[k].Ok? && types[k].value != Horizontal
    ensures SkipDashes(types, j) == Ok(k)
    decreases k - j
  {
    if j < k {
      SkipDashesLands(types, j + 1, k);
    }
  }

  /** A loop run from a piece at `j` over dashes to the piece at `k` keeps the
      flag for L…J and F…7 and toggles it otherwise; the tiles of the run are
      not counted. */
  lemma LoopRun(types: seq<Result<Pipe>>, member: seq<bool>, j: nat, k: nat, enclosed: bool)
    requires |types| == |member| && j < k < |types|
    requires member[j] && types[j].Ok? && types[j].value != Vertical
    requires forall m :: j < m < k ==> types[m] == Ok(Horizontal)
    requires types[k].Ok? && types[k].value != Horizontal
    ensures var t, u := types[j].value, types[k].value;
      ScanRow(types, member, j, enclosed) == ScanRow(types, member, k + 1, if Straight(t, u) then enclosed else !enclosed)
  {
    SkipDashesLands(types, j + 1, k);
  }

  /** A loop piece followed only by dashes to the end of its row makes the
      scan index past the row. */
  lemma RunToRowEnd(types: seq<Result<Pipe>>, member: seq<bool>, j: nat, enclosed: bool)
    requires |types| == |member| && j < |types|
    requires member[j] && types[j].Ok? && types[j].value != Vertical
    requires forall m :: j < m < |types| ==> types[m] == Ok(Horizontal)
    ensures ScanRow(types, member, j, enclosed).Fatal?
  {
    SkipDashesLands(types, j + 1, |types|);
  }

  /** The tiles of the first `n` rows that are not on the loop. */
  function OpenTilesAbove(g: Grid, dist: map<Cell, nat>, n: nat): nat
    requires Rectangular(g) && n <= |g|
  {
    if n == 0 then 0 else OpenTilesAbove(g, dist, n - 1) + OpenTiles(RowMembers(g, dist, n - 1), 0)
  }

  /** One row of `findEnclosedValueCount`, the flag cleared at its start. */
  function ScanGridRow(g: Grid, dist: map<Cell, nat>, row: int): (r: Result<nat>)
    requires Rectangular(g) && 0 <= row < |g|
    ensures r.Ok? ==> r.value <= OpenTiles(RowMembers(g, dist, row), 0)
  {
    ScanRow(RowTypes(g, row), RowMembers(g, dist, row), 0, false)
  }

  predicate RowScans(g: Grid, dist: map<Cell, nat>, row: int)
    requires Rectangular(g) && 0 <= row < |g|
  {
    ScanGridRow(g, dist, row).Ok?
  }

  /** `findEnclosedValueCount` over the first `n` rows: the sum of the rows'
      counts, at most the tiles off the loop; a panic in any row panics. */
  function EnclosedCount(g: Grid, dist: map<Cell, nat>, n: nat): (r: Result<nat>)
    requires Rectangular(g) && n <= |g|
    ensures r.Ok? <==> forall i :: 0 <= i < n ==> RowScans(g, dist, i)
    ensures r.Ok? ==> r.value <= OpenTilesAbove(g, dist, n)
  {
    if n == 0 then Ok(0)
    else
      var before := EnclosedCount(g, dist, n - 1);
      var here := ScanGridRow(g, dist, n - 1);
      if before.Fatal? then Fatal(before.message)
      else if here.Fatal? then
        assert !RowScans(g, dist, n - 1);
        Fatal(here.message)
      else Ok(before.value + here.value)
  }

  /** Part 1: the distance of the farthest tile of the loop. */
  method FarthestDistance(lines: seq<string>) returns (r: Result<int>)
    ensures r.Ok? <==> ParseGrid(lines).Ok? && HasStart(ParseGrid(lines).value)
    ensures r.Ok? ==> exists start, dist ::
      FirstStart(ParseGrid(lines).value, start) && Explored(ParseGrid(lines).value, start, dist, r.value)
  {
    var g :- ParseGrid(lines);
    var start :- FindStartingPoint(g);
    var farthest, dist := ComputeGraph(g, start);
    assert FirstStart(g, start) && Explored(g, start, dist, farthest);
    return Ok(farthest);
  }

  /** Part 2: the number of tiles enclosed by the loop, scanned with the
      distances the search from the first start tile left. */
  method EnclosedTiles(lines: seq<string>) returns (r: Result<nat>)
    ensures ParseGrid(lines).Fatal? ==> r.Fatal?
    ensures ParseGrid(lines).Ok? && !HasStart(ParseGrid(lines).value) ==> r.Fatal?
    ensures ParseGrid(lines).Ok? && HasStart(ParseGrid(lines).value) ==>
      var g := ParseGrid(lines).value;
      exists start, dist, farthest ::
        FirstStart(g, start) && Explored(g, start, dist, farthest) && r == EnclosedCount(g, dist, |g|)
  {
    var g :- ParseGrid(lines);
    var start :- FindStartingPoint(g);
    var farthest, dist := ComputeGraph(g, start);
    r := EnclosedCount(g, dist, |g|);
    assert FirstStart(g, start) && Explored(g, start, dist, farthest) && r == EnclosedCount(g, dist, |g|);
  }

  /** A row `|.|` whose pipes are on the loop encloses its middle tile. */
  lemma ExampleRow()
    ensures ScanRow([Ok(Vertical), Ok(Ground), Ok(Vertical)], [true, false, true], 0, false) == Ok(1)
  {
    var types, member := [Ok(Vertical), Ok(Ground), Ok(Vertical)], [true, false, true];
    assert ScanRow(types, member, 2, true) == Ok(0);
    assert ScanRow(types, member, 1, true) == Ok(1);
  }
}
