/** Day 10: Pipe Maze. The grid holds pipes joining neighbouring cells; a
    depth-first search from the start records the distance of every cell
    along the pipes, part 1 is the largest such distance, and part 2 counts
    the cells enclosed by the loop with a left-to-right parity scan. */
module Day10 {
  import opened Util

  const PANIC: string := "panic"
  const OUT_OF_FUEL: string := "out of fuel"

  /** `usize::MAX`: the distance of a cell the search has not reached. */
  const UNREACHED: nat := 0xFFFF_FFFF_FFFF_FFFF

  datatype Pipe = NS | EW | NE | NW | SW | SE

  /** A cell as (x, y): x grows to the right, y downward, so up is y - 1.
      Coordinates are integers: a step off the top or left edge gives -1,
      where the source's `usize` wraps to a value just as far out of range. */
  type Pos = (int, int)

  type Grid = seq<seq<Option<Pipe>>>

  /** The pipe under the start, chosen for the puzzle input. */
  const S_REPLACEMENT: Pipe := EW

  // ---------------------------------------------------------------- tiles

  function Tile(c: char): Result<Option<Pipe>>
  {
    match c
    case '|' => Ok(Some(NS))
    case '-' => Ok(Some(EW))
    case 'L' => Ok(Some(NE))
    case 'J' => Ok(Some(NW))
    case '7' => Ok(Some(SW))
    case 'F' => Ok(Some(SE))
    case 'S' => Ok(Some(S_REPLACEMENT))
    case '.' => Ok(None)
    case _ => Err(PANIC)
  }

  function PipeChar(p: Pipe): char
  {
    match p
    case NS => '|'
    case EW => '-'
    case NE => 'L'
    case NW => 'J'
    case SW => '7'
    case SE => 'F'
  }

  /** Every pipe is read from its own character; `S` reads as the
      replacement pipe, `.` as no pipe, and any other character panics. */
  lemma TileSpec(c: char)
    ensures Tile(c).Ok? <==> c == 'S' || c == '.' || exists p :: PipeChar(p) == c
    ensures Tile(c) == Ok(None) <==> c == '.'
    ensures forall p :: Tile(PipeChar(p)) == Ok(Some(p))
    ensures Tile('S') == Ok(Some(EW))
  {
    if c in "|-LJ7F" {
      assert PipeChar(match c case '|' => NS case '-' => EW case 'L' => NE case 'J' => NW case '7' => SW case _ => SE) == c;
    }
  }

  /** The two cells a pipe at `p` joins, in the order the search pushes
      them. */
  function Links(p: Pos, pipe: Pipe): (Pos, Pos)
  {
    var (x, y) := p;
    match pipe
    case NS => ((x, y - 1), (x, y + 1))
    case EW => ((x + 1, y), (x - 1, y))
    case NE => ((x + 1, y), (x, y - 1))
    case NW => ((x, y - 1), (x - 1, y))
    case SW => ((x - 1, y), (x, y + 1))
    case SE => ((x, y + 1), (x + 1, y))
  }

  function Abs(n: int): nat
  {
    if n < 0 then -n else n
  }

  predicate Adjacent(p: Pos, q: Pos)
  {
    Abs(p.0 - q.0) + Abs(p.1 - q.1) == 1
  }

  /** Each pipe joins two different neighbours of its cell, and the pair
      it joins tells the pipe apart from every other. */
  lemma LinksSpec(p: Pos, a: Pipe, b: Pipe)
    ensures Adjacent(p, Links(p, a).0) && Adjacent(p, Links(p, a).1) && Links(p, a).0 != Links(p, a).1
    ensures {Links(p, a).0, Links(p, a).1} == {Links(p, b).0, Links(p, b).1} ==> a == b
  {
    var la, lb := Links(p, a), Links(p, b);
    if {la.0, la.1} == {lb.0, lb.1} && a != b {
      assert la.0 in {lb.0, lb.1} && la.1 in {lb.0, lb.1};
    }
  }

  // -------------------------------------------------------------- parsing

  function ParseRow(line: string): Result<seq<Option<Pipe>>>
  {
    MapResults(line, Tile)
  }

  function ParseGrid(lines: seq<string>): Result<Grid>
  {
    MapResults(lines, ParseRow)
  }

  /** The last occurrence of `c` in `s`. */
  function LastIndexOf(s: string, c: char): (r: Option<nat>)
    ensures r.Some? ==> r.value < |s| && s[r.value] == c && forall i :: r.value < i < |s| ==> s[i] != c
    ensures r.None? ==> forall i :: 0 <= i < |s| ==> s[i] != c
  {
    if s == [] then None
    else if s[|s| - 1] == c then Some(|s| - 1)
    else LastIndexOf(s[..|s| - 1], c)
  }

  /** Where the start is: the closure records every `S` it meets, so the
      last one in reading order wins. */
  function LastStart(lines: seq<string>): (r: Option<Pos>)
    ensures r.Some? ==> 0 <= r.value.1 < |lines| && 0 <= r.value.0 < |lines[r.value.1]|
    ensures r.Some? ==> lines[r.value.1][r.value.0] == 'S'
    ensures r.Some? ==> forall y, x :: r.value.1 <= y < |lines| && 0 <= x < |lines[y]| && (y > r.value.1 || x > r.value.0) ==> lines[y][x] != 'S'
    ensures r.None? ==> forall y, x :: 0 <= y < |lines| && 0 <= x < |lines[y]| ==> lines[y][x] != 'S'
  {
    if lines == [] then None
    else
      var y := |lines| - 1;
      match LastIndexOf(lines[y], 'S')
      case Some(x) => Some((x, y))
      case None =>
        var r := LastStart(lines[..y]);
        assert forall k :: 0 <= k < y ==> lines[..y][k] == lines[k];
        r
  }

  // --------------------------------------------------------------- search

  predicate InBox(dist: seq<seq<nat>>, p: Pos)
  {
    0 <= p.1 < |dist| && 0 <= p.0 < |dist[p.1]|
  }

  function At(dist: seq<seq<nat>>, p: Pos): nat
    requires InBox(dist, p)
  {
    dist[p.1][p.0]
  }

  /** The map with `d` recorded at `p`. */
  function Record(dist: seq<seq<nat>>, p: Pos, d: nat): (r: seq<seq<nat>>)
    requires InBox(dist, p)
    ensures |r| == |dist| && forall y :: 0 <= y < |r| ==> |r[y]| == |dist[y]|
  {
    var row: seq<nat> := dist[p.1][p.0 := d];
    dist[p.1 := row]
  }

  function Last(path: seq<Pos>): Pos
    requires |path| >= 1
  {
    path[|path| - 1]
  }

  predicate IsPipe(grid: Grid, p: Pos)
  {
    0 <= p.1 < |grid| && 0 <= p.0 < |grid[p.1]| && grid[p.1][p.0].Some?
  }

  function PipeAt(grid: Grid, p: Pos): Pipe
    requires IsPipe(grid, p)
  {
    grid[p.1][p.0].value
  }

  /** The pipe at `p` joins it to `q`. */
  predicate Joins(grid: Grid, p: Pos, q: Pos)
  {
    IsPipe(grid, p) && (q == Links(p, PipeAt(grid, p)).0 || q == Links(p, PipeAt(grid, p)).1)
  }

  /** A walk along the pipes: each cell but the last is a pipe joining it
      to the next. */
  ghost predicate IsWalk(grid: Grid, path: seq<Pos>)
  {
    |path| >= 1 && forall i :: 0 <= i < |path| - 1 ==> Joins(grid, path[i], path[i + 1])
  }

  /** A walk of `d` steps from `start` to `p`. */
  ghost predicate WalkFrom(grid: Grid, start: Pos, path: seq<Pos>, p: Pos, d: nat)
  {
    IsWalk(grid, path) && path[0] == start && path[|path| - 1] == p && |path| == d + 1
  }

  /** `n` already has a distance of at most `e`, or the stack still holds
      it with at most `e`. */
  predicate Covered(dist: seq<seq<nat>>, q: seq<(Pos, nat)>, n: Pos, e: nat)
  {
    (InBox(dist, n) && dist[n.1][n.0] <= e) || exists k :: 0 <= k < |q| && q[k].0 == n && q[k].1 <= e
  }

  /** Every reached cell is a pipe, and each cell it joins is covered one
      step further. */
  predicate Relaxed(grid: Grid, dist: seq<seq<nat>>, q: seq<(Pos, nat)>)
  {
    forall y, x :: 0 <= y < |dist| && 0 <= x < |dist[y]| && dist[y][x] != UNREACHED ==>
      IsPipe(grid, (x, y)) &&
      Covered(dist, q, Links((x, y), PipeAt(grid, (x, y))).0, dist[y][x] + 1) &&
      Covered(dist, q, Links((x, y), PipeAt(grid, (x, y))).1, dist[y][x] + 1)
  }

  /** Every reached cell's distance is the length of a walk to it, given by
      `reach`. */
  ghost predicate Sound(grid: Grid, start: Pos, dist: seq<seq<nat>>, reach: map<Pos, seq<Pos>>)
  {
    forall y, x :: 0 <= y < |dist| && 0 <= x < |dist[y]| && dist[y][x] != UNREACHED ==>
      (x, y) in reach && WalkFrom(grid, start, reach[(x, y)], (x, y), dist[y][x])
  }

  /** Every entry of the stack is a walk of its distance, given by `walks`. */
  ghost predicate StackSound(grid: Grid, start: Pos, q: seq<(Pos, nat)>, walks: seq<seq<Pos>>)
  {
    |walks| == |q| && forall k :: 0 <= k < |q| ==> WalkFrom(grid, start, walks[k], q[k].0, q[k].1)
  }

  predicate Shaped(dist: seq<seq<nat>>, rows: nat, width: nat)
  {
    |dist| == rows && forall y :: 0 <= y < rows ==> |dist[y]| == width
  }

  /** The distances are exactly the shortest walks along the pipes: a
      reached cell has a walk of its distance, and every walk from the start
      (shorter than `usize::MAX`) ends at a reached cell no farther away. */
  ghost predicate Shortest(grid: Grid, start: Pos, dist: seq<seq<nat>>)
  {
    (forall y, x :: 0 <= y < |dist| && 0 <= x < |dist[y]| && dist[y][x] != UNREACHED ==>
      exists path :: WalkFrom(grid, start, path, (x, y), dist[y][x])) &&
    (forall path :: IsWalk(grid, path) && path[0] == start && |path| <= UNREACHED ==>
      InBox(dist, Last(path)) && At(dist, Last(path)) <= |path| - 1)
  }

  function Snapshot(a: array2<nat>): (s: seq<seq<nat>>)
    reads a
    ensures Shaped(s, a.Length0, a.Length1)
  {
    seq(a.Length0, y requires 0 <= y < a.Length0 reads a => seq(a.Length1, x requires 0 <= x < a.Length1 reads a => a[y, x]))
  }

  /** The search of `solve`: pop a cell and its distance; skip it if the
      cell already has a smaller one, otherwise record the distance and push
      the two cells its pipe joins one step further. An index off the map or
      a popped cell without a pipe panics. The loop has a step budget
      `fuel` in place of running until the stack is empty. */
  method Search(grid: Grid, start: Pos, fuel: nat) returns (r: Result<seq<seq<nat>>>)
    requires |grid| > 0 && fuel <= UNREACHED
    ensures r.Ok? ==> Shaped(r.value, |grid|, |grid[0]|)
    ensures r.Ok? ==> InBox(r.value, start) && At(r.value, start) == 0
    ensures r.Ok? ==> Shortest(grid, start, r.value)
  {
    var width := |grid[0]|;
    var dist := new nat[|grid|, width]((y, x) => UNREACHED);
    var q: seq<(Pos, nat)> := [(start, 0)];
    ghost var walks := [[start]];
    ghost var reach: map<Pos, seq<Pos>> := map[];
    var steps := 0;
    SearchStarts(grid, start, Snapshot(dist));
    while q != []
      invariant dist.Length0 == |grid| && dist.Length1 == width
      invariant steps <= fuel
      invariant SearchState(grid, start, Snapshot(dist), q, walks, reach, steps)
      invariant |walks| == |q|
      decreases fuel - steps
    {
      if steps == fuel {
        return Err(OUT_OF_FUEL);
      }
      ghost var before := Snapshot(dist);
      ghost var oldSteps := steps;
      var m := |q| - 1;
      var (n, d) := q[m];
      ghost var path := walks[m];
      SplitLast(q);
      SplitLast(walks);
      q := q[..m];
      walks := walks[..m];
      steps := steps + 1;
      var (x, y) := n;
      if !(0 <= y < dist.Length0 && 0 <= x < dist.Length1) {
        return Err(PANIC);
      }
      if dist[y, x] < d {
        SearchSkips(grid, start, before, q, walks, reach, oldSteps, n, d, path);
        continue;
      }
      Write(dist, n, d);
      if !(x < |grid[y]|) || grid[y][x].None? {
        return Err(PANIC);
      }
      var (a, b) := Links(n, grid[y][x].value);
      SearchExpands(grid, start, before, q, walks, reach, oldSteps, n, d, path, a, b);
      q := q + [(a, d + 1), (b, d + 1)];
      walks := walks + [path + [a], path + [b]];
      reach := reach[n := path];
    }
    var result := Snapshot(dist);
    SearchEnds(grid, start, result, walks, reach, steps);
    return Ok(result);
  }

  lemma SplitLast<T>(s: seq<T>)
    requires |s| > 0
    ensures s == s[..|s| - 1] + [s[|s| - 1]]
  {
  }

  /** Writes `d` at `p` in the distance array. */
  method Write(dist: array2<nat>, p: Pos, d: nat)
    requires 0 <= p.1 < dist.Length0 && 0 <= p.0 < dist.Length1
    modifies dist
    ensures Snapshot(dist) == Record(old(Snapshot(dist)), p, d)
  {
    ghost var before := Snapshot(dist);
    var (x, y) := p;
    dist[y, x] := d;
    var after := Record(before, p, d);
    forall i | 0 <= i < dist.Length0 ensures Snapshot(dist)[i] == after[i] {
      forall j | 0 <= j < dist.Length1 ensures Snapshot(dist)[i][j] == after[i][j] {
        if i != y || j != x {
          assert after[i][j] == before[i][j];
        }
      }
    }
  }

  predicate Untouched(dist: seq<seq<nat>>)
  {
    forall y, x :: 0 <= y < |dist| && 0 <= x < |dist[y]| ==> dist[y][x] == UNREACHED
  }

  /** No entry of the stack is farther than `steps`. */
  predicate Bounded(q: seq<(Pos, nat)>, steps: nat)
  {
    forall k :: 0 <= k < |q| ==> q[k].1 <= steps
  }

  /** What holds between two iterations of the search after `steps` pops. */
  ghost predicate SearchState(grid: Grid, start: Pos, dist: seq<seq<nat>>, q: seq<(Pos, nat)>,
                              walks: seq<seq<Pos>>, reach: map<Pos, seq<Pos>>, steps: nat)
  {
    Bounded(q, steps) &&
    (steps == 0 ==> q == [(start, 0)] && walks == [[start]] && Untouched(dist)) &&
    (steps > 0 ==> InBox(dist, start) && At(dist, start) == 0) &&
    Relaxed(grid, dist, q) && StackSound(grid, start, q, walks) && Sound(grid, start, dist, reach)
  }

  lemma SearchStarts(grid: Grid, start: Pos, dist: seq<seq<nat>>)
    requires Untouched(dist)
    ensures SearchState(grid, start, dist, [(start, 0)], [[start]], map[], 0)
  {
  }

  lemma SearchSkips(grid: Grid, start: Pos, dist: seq<seq<nat>>, q: seq<(Pos, nat)>, walks: seq<seq<Pos>>,
                    reach: map<Pos, seq<Pos>>, steps: nat, n: Pos, d: nat, path: seq<Pos>)
    requires SearchState(grid, start, dist, q + [(n, d)], walks + [path], reach, steps)
    requires InBox(dist, n) && At(dist, n) < d
    ensures SearchState(grid, start, dist, q, walks, reach, steps + 1)
  {
    SkipKeepsRelaxed(grid, dist, q, n, d);
    StackPops(grid, start, q, walks, n, d, path, steps);
  }

  lemma SearchExpands(grid: Grid, start: Pos, dist: seq<seq<nat>>, q: seq<(Pos, nat)>, walks: seq<seq<Pos>>,
                      reach: map<Pos, seq<Pos>>, steps: nat, n: Pos, d: nat, path: seq<Pos>, a: Pos, b: Pos)
    requires SearchState(grid, start, dist, q + [(n, d)], walks + [path], reach, steps) && steps < UNREACHED
    requires InBox(dist, n) && d <= At(dist, n) && IsPipe(grid, n) && (a, b) == Links(n, PipeAt(grid, n))
    ensures SearchState(grid, start, Record(dist, n, d), q + [(a, d + 1), (b, d + 1)],
                        walks + [path + [a], path + [b]], reach[n := path], steps + 1)
  {
    StackPops(grid, start, q, walks, n, d, path, steps);
    if steps == 0 {
      assert (q + [(n, d)])[|q|] == (n, d);
    }
    ExpandKeepsRelaxed(grid, dist, q, n, d, a, b);
    StackPushes(grid, start, q, walks, n, d, path, a, b, steps);
    KeepsSound(grid, start, dist, reach, n, d, path);
    KeepsStart(dist, start, n, d, steps);
  }

  /** The walks of the stack stay aligned with it when the top is popped. */
  lemma StackPops(grid: Grid, start: Pos, q: seq<(Pos, nat)>, walks: seq<seq<Pos>>, n: Pos, d: nat, path: seq<Pos>, steps: nat)
    requires StackSound(grid, start, q + [(n, d)], walks + [path])
    requires Bounded(q + [(n, d)], steps)
    ensures StackSound(grid, start, q, walks) && WalkFrom(grid, start, path, n, d) && d <= steps
    ensures Bounded(q, steps + 1)
  {
    var stack, stackWalks := q + [(n, d)], walks + [path];
    assert stack[|q|] == (n, d) && stackWalks[|q|] == path;
    forall k | 0 <= k < |q| ensures WalkFrom(grid, start, walks[k], q[k].0, q[k].1) && q[k].1 <= steps {
      assert stack[k] == q[k] && stackWalks[k] == walks[k];
    }
  }

  /** Pushing the two cells a pipe joins, with their walks, keeps the stack
      sound. */
  lemma StackPushes(grid: Grid, start: Pos, q: seq<(Pos, nat)>, walks: seq<seq<Pos>>, n: Pos, d: nat,
                    path: seq<Pos>, a: Pos, b: Pos, steps: nat)
    requires StackSound(grid, start, q + [(n, d)], walks + [path])
    requires Bounded(q + [(n, d)], steps)
    requires IsPipe(grid, n) && (a, b) == Links(n, PipeAt(grid, n))
    ensures StackSound(grid, start, q + [(a, d + 1), (b, d + 1)], walks + [path + [a], path + [b]])
    ensures Bounded(q + [(a, d + 1), (b, d + 1)], steps + 1)
  {
    StackPops(grid, start, q, walks, n, d, path, steps);
    WalkExtends(grid, start, path, n, d, a);
    WalkExtends(grid, start, path, n, d, b);
    var q2 := q + [(a, d + 1), (b, d + 1)];
    var walks2 := walks + [path + [a], path + [b]];
    forall k | 0 <= k < |q2| ensures WalkFrom(grid, start, walks2[k], q2[k].0, q2[k].1) && q2[k].1 <= steps + 1 {
      if k < |q| {
        assert q2[k] == q[k] && walks2[k] == walks[k];
      }
    }
  }

  /** Once the start is recorded at 0, no later record moves it. */
  lemma KeepsStart(dist: seq<seq<nat>>, start: Pos, n: Pos, d: nat, steps: nat)
    requires InBox(dist, n) && d <= At(dist, n)
    requires steps == 0 ==> n == start && d == 0
    requires steps > 0 ==> InBox(dist, start) && At(dist, start) == 0
    ensures InBox(Record(dist, n, d), start) && At(Record(dist, n, d), start) == 0
  {
  }

  lemma SearchEnds(grid: Grid, start: Pos, dist: seq<seq<nat>>, walks: seq<seq<Pos>>,
                   reach: map<Pos, seq<Pos>>, steps: nat)
    requires SearchState(grid, start, dist, [], walks, reach, steps)
    ensures InBox(dist, start) && At(dist, start) == 0 && Shortest(grid, start, dist)
  {
    RelaxedIsShortest(grid, start, dist, reach);
  }

  /** Popping an entry whose cell already has a smaller distance keeps the
      map relaxed. */
  lemma SkipKeepsRelaxed(grid: Grid, dist: seq<seq<nat>>, q: seq<(Pos, nat)>, n: Pos, d: nat)
    requires Relaxed(grid, dist, q + [(n, d)])
    requires InBox(dist, n) && At(dist, n) < d
    ensures Relaxed(grid, dist, q)
  {
    var stack := q + [(n, d)];
    forall p: Pos, e: nat | Covered(dist, stack, p, e) ensures Covered(dist, q, p, e) {
      if !(InBox(dist, p) && dist[p.1][p.0] <= e) {
        var k :| 0 <= k < |stack| && stack[k].0 == p && stack[k].1 <= e;
        assert k < |q| && stack[k] == q[k];
      }
    }
  }

  /** Recording `d` at a cell and pushing the cells its pipe joins keeps the
      map relaxed. */
  lemma ExpandKeepsRelaxed(grid: Grid, dist: seq<seq<nat>>, q: seq<(Pos, nat)>, n: Pos, d: nat, a: Pos, b: Pos)
    requires Relaxed(grid, dist, q + [(n, d)])
    requires InBox(dist, n) && d <= At(dist, n) && d < UNREACHED && IsPipe(grid, n) && (a, b) == Links(n, PipeAt(grid, n))
    ensures Relaxed(grid, Record(dist, n, d), q + [(a, d + 1), (b, d + 1)])
  {
    var stack := q + [(n, d)];
    var after := Record(dist, n, d);
    var pushed := q + [(a, d + 1), (b, d + 1)];
    assert pushed[|q|] == (a, d + 1) && pushed[|q| + 1] == (b, d + 1);
    forall p: Pos, e: nat | Covered(dist, stack, p, e) ensures Covered(after, pushed, p, e) {
      if InBox(dist, p) && dist[p.1][p.0] <= e {
        assert after[p.1][p.0] <= dist[p.1][p.0];
      } else {
        var k :| 0 <= k < |stack| && stack[k].0 == p && stack[k].1 <= e;
        if k < |q| {
          assert pushed[k] == stack[k];
        } else {
          assert after[n.1][n.0] == d;
        }
      }
    }
    forall y, x | 0 <= y < |after| && 0 <= x < |after[y]| && after[y][x] != UNREACHED
      ensures IsPipe(grid, (x, y))
      ensures Covered(after, pushed, Links((x, y), PipeAt(grid, (x, y))).0, after[y][x] + 1)
      ensures Covered(after, pushed, Links((x, y), PipeAt(grid, (x, y))).1, after[y][x] + 1)
    {
      if (x, y) != n {
        assert after[y][x] == dist[y][x];
      }
    }
  }

  /** Recording a walked distance keeps every distance backed by a walk. */
  lemma KeepsSound(grid: Grid, start: Pos, dist: seq<seq<nat>>, reach: map<Pos, seq<Pos>>, n: Pos, d: nat, path: seq<Pos>)
    requires Sound(grid, start, dist, reach) && InBox(dist, n) && WalkFrom(grid, start, path, n, d)
    ensures Sound(grid, start, Record(dist, n, d), reach[n := path])
  {
    var after := Record(dist, n, d);
    forall y, x | 0 <= y < |after| && 0 <= x < |after[y]| && after[y][x] != UNREACHED
      ensures (x, y) in reach[n := path] && WalkFrom(grid, start, reach[n := path][(x, y)], (x, y), after[y][x])
    {
      if (x, y) != n {
        assert after[y][x] == dist[y][x];
      }
    }
  }

  /** A walk to a pipe goes on to either cell the pipe joins. */
  lemma WalkExtends(grid: Grid, start: Pos, path: seq<Pos>, n: Pos, d: nat, a: Pos)
    requires WalkFrom(grid, start, path, n, d) && Joins(grid, n, a)
    ensures WalkFrom(grid, start, path + [a], a, d + 1)
  {
    var longer := path + [a];
    forall i | 0 <= i < |longer| - 1 ensures Joins(grid, longer[i], longer[i + 1]) {
      if i < |path| - 1 {
        assert longer[i] == path[i] && longer[i + 1] == path[i + 1];
      }
    }
  }

  /** With the stack empty, a relaxed map with the start at 0 is no farther
      than any walk, and a sound one has a walk for every distance. */
  lemma RelaxedIsShortest(grid: Grid, start: Pos, dist: seq<seq<nat>>, reach: map<Pos, seq<Pos>>)
    requires Relaxed(grid, dist, []) && InBox(dist, start) && dist[start.1][start.0] == 0
    requires Sound(grid, start, dist, reach)
    ensures Shortest(grid, start, dist)
  {
    forall y, x | 0 <= y < |dist| && 0 <= x < |dist[y]| && dist[y][x] != UNREACHED
      ensures exists path :: WalkFrom(grid, start, path, (x, y), dist[y][x])
    {
      assert WalkFrom(grid, start, reach[(x, y)], (x, y), dist[y][x]);
    }
    RelaxedClosed(grid, dist);
    forall path | IsWalk(grid, path) && path[0] == start && |path| <= UNREACHED
      ensures InBox(dist, Last(path)) && At(dist, Last(path)) <= |path| - 1
    {
      WalkNoShorter(grid, start, dist, path, |path| - 1);
    }
  }

  /** A map in which every cell a reached pipe joins is reached at most one
      step further. */
  ghost predicate Closed(grid: Grid, dist: seq<seq<nat>>)
  {
    forall p, n :: InBox(dist, p) && At(dist, p) != UNREACHED && Joins(grid, p, n) ==>
      InBox(dist, n) && At(dist, n) <= At(dist, p) + 1
  }

  lemma {:induction false} WalkNoShorter(grid: Grid, start: Pos, dist: seq<seq<nat>>, path: seq<Pos>, i: nat)
    requires Closed(grid, dist) && InBox(dist, start) && At(dist, start) == 0
    requires IsWalk(grid, path) && path[0] == start && |path| <= UNREACHED && i < |path|
    ensures InBox(dist, path[i]) && At(dist, path[i]) <= i
  {
    if i > 0 {
      WalkNoShorter(grid, start, dist, path, i - 1);
      assert Joins(grid, path[i - 1], path[i]);
    }
  }

  /** A relaxed map with nothing pending is closed. */
  lemma RelaxedClosed(grid: Grid, dist: seq<seq<nat>>)
    requires Relaxed(grid, dist, [])
    ensures Closed(grid, dist)
  {
    forall p, n | InBox(dist, p) && At(dist, p) != UNREACHED && Joins(grid, p, n)
      ensures InBox(dist, n) && At(dist, n) <= At(dist, p) + 1
    {
      var (x, y) := p;
      assert dist[y][x] != UNREACHED;
    }
  }

  // --------------------------------------------------------------- part 1

  /** The largest distance of a reached cell in a row. */
  function RowMax(row: seq<nat>): (r: Option<nat>)
    ensures r.Some? <==> exists x :: 0 <= x < |row| && row[x] != UNREACHED
    ensures r.Some? ==> r.value != UNREACHED && (exists x :: 0 <= x < |row| && row[x] == r.value)
    ensures r.Some? ==> forall x :: 0 <= x < |row| && row[x] != UNREACHED ==> row[x] <= r.value
  {
    if row == [] then None
    else
      var last := row[|row| - 1];
      var r := RowMax(row[..|row| - 1]);
      assert forall x :: 0 <= x < |row| - 1 ==> row[..|row| - 1][x] == row[x];
      if last == UNREACHED then r
      else if r.Some? && r.value >= last then r
      else Some(last)
  }

  /** Part 1: the largest distance of any reached cell; with none, `max`
      finds nothing to unwrap. */
  function Part1(dist: seq<seq<nat>>): (r: Option<nat>)
    ensures r.Some? <==> exists y, x :: 0 <= y < |dist| && 0 <= x < |dist[y]| && dist[y][x] != UNREACHED
    ensures r.Some? ==> r.value != UNREACHED && exists y, x :: 0 <= y < |dist| && 0 <= x < |dist[y]| && dist[y][x] == r.value
    ensures r.Some? ==> forall y, x :: 0 <= y < |dist| && 0 <= x < |dist[y]| && dist[y][x] != UNREACHED ==> dist[y][x] <= r.value
  {
    if dist == [] then None
    else
      var n := |dist| - 1;
      var r := Part1(dist[..n]);
      var m := RowMax(dist[n]);
      assert forall y :: 0 <= y < n ==> dist[..n][y] == dist[y];
      if m.None? then r
      else if r.Some? && r.value >= m.value then r
      else m
  }

  // --------------------------------------------------------------- part 2

  /** A pipe the search reached: part of the main loop. */
  predicate OnLoop(cell: Option<Pipe>, d: nat)
  {
    cell.Some? && d != UNREACHED
  }

  /** The loop pipes at which the scan flips between outside and inside. */
  predicate Flips(cell: Option<Pipe>, d: nat)
  {
    OnLoop(cell, d) && (cell.value == NS || cell.value == SE || cell.value == SW)
  }

  /** The number of flipping loop cells among the first `i` of a row. */
  function Crossings(cells: seq<Option<Pipe>>, dists: seq<nat>, i: nat): nat
    requires i <= |cells| && i <= |dists|
  {
    if i == 0 then 0
    else Crossings(cells, dists, i - 1) + (if Flips(cells[i - 1], dists[i - 1]) then 1 else 0)
  }

  /** The number of cells among the first `i` that are off the loop and
      have an odd number of flipping loop cells to their left. */
  function Enclosed(cells: seq<Option<Pipe>>, dists: seq<nat>, i: nat): nat
    requires i <= |cells| && i <= |dists|
  {
    if i == 0 then 0
    else
      var counted := !OnLoop(cells[i - 1], dists[i - 1]) && Crossings(cells, dists, i - 1) % 2 == 1;
      Enclosed(cells, dists, i - 1) + (if counted then 1 else 0)
  }

  function Min(a: nat, b: nat): nat
  {
    if a < b then a else b
  }

  /** The closure of part 2 for one row: `inside` flips at every flipping
      loop cell, and `counter` counts the off-loop cells met while inside;
      the zip stops at the shorter of the two rows. */
  method CountRow(cells: seq<Option<Pipe>>, dists: seq<nat>) returns (counter: nat)
    ensures counter == Enclosed(cells, dists, Min(|cells|, |dists|))
  {
    var inside := false;
    counter := 0;
    for i := 0 to Min(|cells|, |dists|)
      invariant inside <==> Crossings(cells, dists, i) % 2 == 1
      invariant counter == Enclosed(cells, dists, i)
    {
      if !OnLoop(cells[i], dists[i]) {
        if inside {
          counter := counter + 1;
        }
        continue;
      }
      if cells[i].value == NS || cells[i].value == SE || cells[i].value == SW {
        inside := !inside;
      }
    }
  }

  /** The enclosed counts of the first `n` rows added up. */
  function TotalEnclosed(grid: Grid, dist: seq<seq<nat>>, n: nat): nat
    requires n <= |grid| && n <= |dist|
  {
    if n == 0 then 0
    else TotalEnclosed(grid, dist, n - 1) + Enclosed(grid[n - 1], dist[n - 1], Min(|grid[n - 1]|, |dist[n - 1]|))
  }

  /** Part 2: the rows counted and added up. */
  method Part2(grid: Grid, dist: seq<seq<nat>>) returns (total: nat)
    requires |dist| == |grid|
    ensures total == TotalEnclosed(grid, dist, |grid|)
  {
    total := 0;
    for y := 0 to |grid|
      invariant total == TotalEnclosed(grid, dist, y)
    {
      var c := CountRow(grid[y], dist[y]);
      total := total + c;
    }
  }

  /** A row with no loop cell encloses nothing. */
  lemma {:induction false} NoLoopNoneEnclosed(cells: seq<Option<Pipe>>, dists: seq<nat>, i: nat)
    requires i <= |cells| && i <= |dists|
    requires forall j :: 0 <= j < i ==> !OnLoop(cells[j], dists[j])
    ensures Crossings(cells, dists, i) == 0 && Enclosed(cells, dists, i) == 0
  {
    if i > 0 {
      NoLoopNoneEnclosed(cells, dists, i - 1);
    }
  }

  /** Only off-loop cells are counted, so a row encloses at most its cells
      off the loop. */
  lemma {:induction false} EnclosedBound(cells: seq<Option<Pipe>>, dists: seq<nat>, i: nat)
    requires i <= |cells| && i <= |dists|
    ensures Enclosed(cells, dists, i) + LoopCells(cells, dists, i) <= i
  {
    if i > 0 {
      EnclosedBound(cells, dists, i - 1);
    }
  }

  function LoopCells(cells: seq<Option<Pipe>>, dists: seq<nat>, i: nat): nat
    requires i <= |cells| && i <= |dists|
  {
    if i == 0 then 0
    else LoopCells(cells, dists, i - 1) + (if OnLoop(cells[i - 1], dists[i - 1]) then 1 else 0)
  }

  // ---------------------------------------------------------------- solve

  /** `solve`: read the grid, find the start, search, then both parts. */
  method Solve(input: string, fuel: nat) returns (r: Result<(nat, nat)>)
    requires fuel <= UNREACHED
    ensures r.Ok? ==> ParseGrid(Lines(input)).Ok? && LastStart(Lines(input)).Some?
    ensures r.Ok? ==>
      var grid := ParseGrid(Lines(input)).value;
      var start := LastStart(Lines(input)).value;
      exists dist :: Shortest(grid, start, dist) && Shaped(dist, |grid|, |grid[0]|) &&
        Part1(dist) == Some(r.value.0) && r.value.1 == TotalEnclosed(grid, dist, |grid|)
  {
    var lines := Lines(input);
    var parsed := ParseGrid(lines);
    if parsed.Err? {
      return Err(parsed.reason);
    }
    var grid := parsed.value;
    var start := LastStart(lines);
    if start.None? {
      return Err(PANIC);
    }
    MapResultsSpec(lines, ParseRow);
    assert |grid| > 0;
    var searched := Search(grid, start.value, fuel);
    if searched.Err? {
      return Err(searched.reason);
    }
    var dist := searched.value;
    var part1 := Part1(dist);
    if part1.None? {
      assert InBox(dist, start.value);
      return Err(PANIC);
    }
    var part2 := Part2(grid, dist);
    return Ok((part1.value, part2));
  }
}
