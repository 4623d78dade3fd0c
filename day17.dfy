/** Day 17: Clumsy Crucible. A crucible crosses a grid of heat-loss digits
    from the top-left to the bottom-right cell. It must turn after every
    straight run, and each run has a least and a greatest length. The
    solver runs a bucket-queue Dijkstra over states `(position, axis)`:
    from a state it turns left or right, walks the forced steps, and then
    queues a state after each further step. */
module Day17 {
  import opened Util

  const PANIC: string := "panic"

  const UP: bv8 := 0
  const RIGHT: bv8 := 1
  const DOWN: bv8 := 2
  const LEFT: bv8 := 3

  /** `usize::MAX`, the initial value of every cache slot. */
  const USIZE_MAX: nat := 0xFFFF_FFFF_FFFF_FFFF

  // ------------------------------------------------------------ the grid

  /** The heat loss of every cell, row after row, and the row width. */
  datatype Grid = Grid(costs: seq<nat>, columns: nat)
  {
    /** `Grid::new` only builds grids whose first row is part of `costs`. */
    predicate Valid()
    {
      columns <= |costs|
    }
  }

  /** `c - b'0'` on a byte, which wraps in a release build. */
  function HeatLoss(c: char): (h: nat)
    ensures h < 256
    ensures IsDigit(c) ==> h == DigitValue(c)
  {
    (c as int % 256 - '0' as int) % 256
  }

  lemma JoinLonger(parts: seq<string>)
    requires parts != []
    ensures |parts[0]| <= |Join(parts, "")|
  {
  }

  /** `Grid::new`: the width is that of the first line, and the digits of
      all lines are laid end to end. */
  function NewGrid(s: string): (g: Grid)
    ensures g.Valid()
  {
    var lines := Lines(s);
    var flat := Join(lines, "");
    var columns := if lines == [] then 0 else |lines[0]|;
    assert lines != [] ==> columns <= |flat| by {
      if lines != [] {
        JoinLonger(lines);
      }
    }
    Grid(seq(|flat|, i requires 0 <= i < |flat| => HeatLoss(flat[i])), columns)
  }

  lemma {:induction false} JoinUniform(parts: seq<string>, w: nat)
    requires forall i :: 0 <= i < |parts| ==> |parts[i]| == w
    ensures |Join(parts, "")| == |parts| * w
    decreases |parts|
  {
    if |parts| > 1 {
      JoinUniform(parts[1..], w);
    }
  }

  /** Lines of one non-zero width make a rectangular grid with that many
      columns and one cell per character. */
  lemma NewGridRectangular(s: string, w: nat)
    requires Lines(s) != [] && w > 0
    requires forall i :: 0 <= i < |Lines(s)| ==> |Lines(s)[i]| == w
    ensures Rectangular(NewGrid(s)) && NewGrid(s).columns == w
    ensures |NewGrid(s).costs| == |Lines(s)| * w
  {
    JoinUniform(Lines(s), w);
    DivModUnique(|Lines(s)| * w, w, |Lines(s)|, 0);
  }

  /** `Grid::step`: one cell on in direction `dir`. Up needs `pos` to be
      past the first row's last index, right needs `pos + 1` not to start
      a row, down needs a cell a row further on, left needs `pos` not to
      start a row. `% columns` panics when the first line is empty. */
  function Step(g: Grid, pos: nat, dir: bv8): Result<Option<nat>>
    requires g.Valid()
  {
    if dir == UP then
      if pos > g.columns then Ok(Some(pos - g.columns)) else Ok(None)
    else if dir == RIGHT then
      if g.columns == 0 then Err(PANIC)
      else if (pos + 1) % g.columns != 0 then Ok(Some(pos + 1)) else Ok(None)
    else if dir == DOWN then
      if pos < |g.costs| - g.columns then Ok(Some(pos + g.columns)) else Ok(None)
    else if dir == LEFT then
      if g.columns == 0 then Err(PANIC)
      else if pos % g.columns != 0 then Ok(Some(pos - 1)) else Ok(None)
    else Ok(None)
  }

  /** A rectangular grid of at least one cell. */
  predicate Rectangular(g: Grid)
  {
    g.columns > 0 && |g.costs| % g.columns == 0
  }

  /** Row and column of a cell index. */
  function RowOf(g: Grid, pos: nat): nat
    requires g.columns > 0
  {
    pos / g.columns
  }

  function ColOf(g: Grid, pos: nat): nat
    requires g.columns > 0
  {
    pos % g.columns
  }

  lemma MulCancelLess(a: nat, b: nat, n: nat)
    requires n > 0 && a * n < b * n
    ensures a < b
  {
    if a >= b {
      MulMonotone(b, a, n);
    }
  }

  /** A cell of a rectangular grid lies on one of its rows. */
  lemma RowBelowRows(g: Grid, pos: nat)
    requires Rectangular(g) && pos < |g.costs|
    ensures RowOf(g, pos) < |g.costs| / g.columns
    ensures (RowOf(g, pos) + 1) * g.columns <= |g.costs|
  {
    var n, rows := g.columns, |g.costs| / g.columns;
    var row := pos / n;
    assert rows * n == |g.costs|;
    assert row * n + pos % n == pos;
    MulCancelLess(row, rows, n);
    MulMonotone(row + 1, rows, n);
  }

  /** Up moves one row back in the same column; the step is refused on the
      first row and, as written, also from the first cell of the second row,
      where `pos > columns` fails although row 0 is above it. */
  lemma StepUp(g: Grid, pos: nat)
    requires g.Valid() && Rectangular(g) && pos < |g.costs|
    ensures Step(g, pos, UP).Ok?
    ensures Step(g, pos, UP).value.None? <==> RowOf(g, pos) == 0 || pos == g.columns
    ensures Step(g, pos, UP).value.Some? ==>
      var q := Step(g, pos, UP).value.value;
      q < |g.costs| && RowOf(g, q) + 1 == RowOf(g, pos) && ColOf(g, q) == ColOf(g, pos)
  {
    var n, row, col := g.columns, pos / g.columns, pos % g.columns;
    assert row * n + col == pos;
    if pos > n {
      assert (row - 1) * n == row * n - n;
      DivModUnique(pos - n, n, row - 1, col);
    } else if pos < n {
      DivModUnique(pos, n, 0, pos);
    }
  }

  /** Down moves one row on in the same column; the step is refused on the
      last row. */
  lemma StepDown(g: Grid, pos: nat)
    requires g.Valid() && Rectangular(g) && pos < |g.costs|
    ensures Step(g, pos, DOWN).Ok?
    ensures Step(g, pos, DOWN).value.None? <==> (RowOf(g, pos) + 1) * g.columns == |g.costs|
    ensures Step(g, pos, DOWN).value.Some? ==>
      var q := Step(g, pos, DOWN).value.value;
      q < |g.costs| && RowOf(g, q) == RowOf(g, pos) + 1 && ColOf(g, q) == ColOf(g, pos)
  {
    var n, row, col := g.columns, pos / g.columns, pos % g.columns;
    var rows := |g.costs| / n;
    assert row * n + col == pos;
    assert rows * n == |g.costs|;
    assert (row + 1) * n == row * n + n;
    RowBelowRows(g, pos);
    if pos < |g.costs| - n {
      DivModUnique(pos + n, n, row + 1, col);
    } else {
      assert (rows - 1) * n == rows * n - n;
      MulCancelLess(rows - 1, row + 1, n);
    }
  }

  /** Left moves one column back in the same row; the step is refused in
      the first column. */
  lemma StepLeft(g: Grid, pos: nat)
    requires g.Valid() && Rectangular(g) && pos < |g.costs|
    ensures Step(g, pos, LEFT).Ok?
    ensures Step(g, pos, LEFT).value.None? <==> ColOf(g, pos) == 0
    ensures Step(g, pos, LEFT).value.Some? ==>
      var q := Step(g, pos, LEFT).value.value;
      q < |g.costs| && RowOf(g, q) == RowOf(g, pos) && ColOf(g, q) + 1 == ColOf(g, pos)
  {
    var n, row, col := g.columns, pos / g.columns, pos % g.columns;
    assert row * n + col == pos;
    if col != 0 {
      DivModUnique(pos - 1, n, row, col - 1);
    }
  }

  /** Right moves one column on in the same row; the step is refused in
      the last column. */
  lemma StepRight(g: Grid, pos: nat)
    requires g.Valid() && Rectangular(g) && pos < |g.costs|
    ensures Step(g, pos, RIGHT).Ok?
    ensures Step(g, pos, RIGHT).value.None? <==> ColOf(g, pos) + 1 == g.columns
    ensures Step(g, pos, RIGHT).value.Some? ==>
      var q := Step(g, pos, RIGHT).value.value;
      q < |g.costs| && RowOf(g, q) == RowOf(g, pos) && ColOf(g, q) == ColOf(g, pos) + 1
  {
    var n, row, col := g.columns, pos / g.columns, pos % g.columns;
    assert row * n + col == pos;
    if col + 1 < n {
      DivModUnique(pos + 1, n, row, col + 1);
      assert pos + 1 != |g.costs|;
    } else {
      assert (row + 1) * n == row * n + n;
      DivModUnique(pos + 1, n, row + 1, 0);
    }
  }

  // ------------------------------------------------------------ turns

  /** The axis a direction moves along: 0 for up and down, 1 for right and
      left. A queued state's direction is the axis of its last run. */
  function Axis(d: bv8): bv8
  {
    d & 1
  }

  /** The two directions `do_solve` turns into after a run along `prev`:
      `prev ^ 1` and `prev ^ 1 ^ 2`. */
  function TurnDirs(prev: bv8): set<bv8>
  {
    {prev ^ 1, (prev ^ 1) ^ 2}
  }

  /** The turns are exactly the two directions across the previous axis,
      and a run in either of them leaves the crucible on the axis
      `prev ^ 1`. */
  lemma TurnsPerpendicular(prev: bv8, d: bv8)
    requires prev < 2
    ensures d in TurnDirs(prev) <==> d < 4 && Axis(d) != prev
    ensures d in TurnDirs(prev) ==> Axis(d) == prev ^ 1 && prev ^ 1 < 2
  {
  }

  // ------------------------------------------------------------ paths

  /** `k` steps from `pos` in direction `dir`: the cell reached and the heat
      lost on the cells entered; none when a step is refused, panics or
      leaves `costs`. */
  function Walk(g: Grid, pos: nat, dir: bv8, k: nat): Option<(nat, nat)>
    requires g.Valid()
  {
    if k == 0 then Some((pos, 0))
    else match Walk(g, pos, dir, k - 1)
      case None => None
      case Some((p, c)) =>
        match Step(g, p, dir)
        case Ok(Some(q)) => if q < |g.costs| then Some((q, c + g.costs[q])) else None
        case _ => None
  }

  /** The run lengths after which `do_solve` queues a state: `1..min` forced
      steps, then one state after each of the steps of `min..=max`. */
  predicate Queued(minSteps: nat, maxSteps: nat, k: nat)
  {
    ForcedSteps(minSteps) < k && k + minSteps <= ForcedSteps(minSteps) + maxSteps + 1
  }

  /** The steps of `1..min`. */
  function ForcedSteps(minSteps: nat): nat
  {
    if minSteps >= 1 then minSteps - 1 else 0
  }

  /** One straight run of a path. */
  datatype Run = Run(dir: bv8, len: nat)

  /** A state of the search: a cell and the axis of the last run. */
  type State = (nat, bv8)

  /** Where the runs `runs` lead from `start` and the heat they lose; none
      when a run does not turn, has a length that is not queued or cannot be
      walked. */
  function Follow(g: Grid, minSteps: nat, maxSteps: nat, start: State, runs: seq<Run>): Option<(State, nat)>
    requires g.Valid()
  {
    if runs == [] then Some((start, 0))
    else Extend(g, minSteps, maxSteps, Follow(g, minSteps, maxSteps, start, runs[..|runs| - 1]), runs[|runs| - 1])
  }

  /** One more run after the state `f` reached with its heat loss. */
  function Extend(g: Grid, minSteps: nat, maxSteps: nat, f: Option<(State, nat)>, run: Run): Option<(State, nat)>
    requires g.Valid()
  {
    match f
    case None => None
    case Some((s, c)) =>
      if run.dir in TurnDirs(s.1) && Queued(minSteps, maxSteps, run.len) then
        match Walk(g, s.0, run.dir, run.len)
        case None => None
        case Some((q, w)) => Some(((q, s.1 ^ 1), c + w))
      else None
  }

  lemma FollowSnoc(g: Grid, minSteps: nat, maxSteps: nat, start: State, runs: seq<Run>, run: Run)
    requires g.Valid()
    ensures Follow(g, minSteps, maxSteps, start, runs + [run]) ==
      Extend(g, minSteps, maxSteps, Follow(g, minSteps, maxSteps, start, runs), run)
  {
    assert (runs + [run])[..|runs|] == runs;
  }

  /** A path from the top-left cell, starting on either axis, to the cell
      `goal` that loses `cost`. */
  predicate PathTo(g: Grid, minSteps: nat, maxSteps: nat, axis: bv8, runs: seq<Run>, goal: nat, cost: nat)
    requires g.Valid()
  {
    var f := Follow(g, minSteps, maxSteps, (0, axis), runs);
    axis < 2 && f.Some? && f.value.0.0 == goal && f.value.1 == cost
  }

  // ------------------------------------------------------------ run lengths

  /** With at least one required step, the queued run lengths are exactly
      `min..=max`. */
  lemma QueuedExact(minSteps: nat, maxSteps: nat, k: nat)
    requires minSteps >= 1
    ensures Queued(minSteps, maxSteps, k) <==> minSteps <= k <= maxSteps
  {
  }

  /** With no required step, `min..=max` still walks `max + 1` steps, so the
      queued lengths are `1..=max + 1`: part 1, called with `(0, 3)`,
      allows runs of four blocks. */
  lemma QueuedFromZero(maxSteps: nat, k: nat)
    ensures Queued(0, maxSteps, k) <==> 1 <= k <= maxSteps + 1
  {
  }

  /** On the one-row grid `11111` the lengths of the call `(0, 3)` admit a
      single run of four blocks from the start to the goal, which the limit
      of three forbids; with `(1, 3)` no run has four blocks. */
  lemma RunOfFour()
    ensures var g := Grid([1, 1, 1, 1, 1], 5);
      PathTo(g, 0, 3, UP, [Run(RIGHT, 4)], 4, 4)
    ensures !Queued(1, 3, 4)
  {
    var g := Grid([1, 1, 1, 1, 1], 5);
    assert Step(g, 0, RIGHT) == Ok(Some(1));
    assert Step(g, 1, RIGHT) == Ok(Some(2));
    assert Step(g, 2, RIGHT) == Ok(Some(3));
    assert Step(g, 3, RIGHT) == Ok(Some(4));
    assert Walk(g, 0, RIGHT, 1) == Some((1, 1));
    assert Walk(g, 0, RIGHT, 2) == Some((2, 2));
    assert Walk(g, 0, RIGHT, 3) == Some((3, 3));
    assert Walk(g, 0, RIGHT, 4) == Some((4, 4));
    assert RIGHT in TurnDirs(UP);
    FollowSnoc(g, 0, 3, (0, UP), [], Run(RIGHT, 4));
  }

  // ------------------------------------------------------------ the bucket queue

  /** A queued state and its priority. */
  datatype Entry = Entry(pos: nat, dir: bv8, cost: nat)

  /** `BucketQueue::min_priority`. */
  function MinCost(q: seq<Entry>): (m: nat)
    requires q != []
    ensures forall i :: 0 <= i < |q| ==> m <= q[i].cost
    ensures exists i :: 0 <= i < |q| && q[i].cost == m
  {
    if |q| == 1 then q[0].cost
    else
      var m := MinCost(q[..|q| - 1]);
      assert forall i :: 0 <= i < |q| - 1 ==> q[..|q| - 1][i] == q[i];
      if q[|q| - 1].cost < m then q[|q| - 1].cost else m
  }

  /** `BucketQueue::pop` on a `Vec` bucket: the entry of that priority
      queued last. */
  function LastAt(q: seq<Entry>, cost: nat): (i: nat)
    requires exists i :: 0 <= i < |q| && q[i].cost == cost
    ensures i < |q| && q[i].cost == cost
    ensures forall j :: i < j < |q| ==> q[j].cost != cost
  {
    if q[|q| - 1].cost == cost then |q| - 1
    else
      assert forall i :: 0 <= i < |q| - 1 ==> q[..|q| - 1][i] == q[i];
      LastAt(q[..|q| - 1], cost)
  }

  // ------------------------------------------------------------ the search

  /** Every cell the grid steps to from a cell of a rectangular grid is one
      of its cells. */
  lemma StepStays(g: Grid, pos: nat, dir: bv8)
    requires g.Valid() && Rectangular(g) && pos < |g.costs| && dir < 4
    ensures Step(g, pos, dir).Ok?
    ensures Step(g, pos, dir).value.Some? ==> Step(g, pos, dir).value.value < |g.costs|
  {
    if dir == UP {
      StepUp(g, pos);
    } else if dir == RIGHT {
      StepRight(g, pos);
    } else if dir == DOWN {
      StepDown(g, pos);
    } else {
      StepLeft(g, pos);
    }
  }

  /** A step followed by the read of the heat loss of the cell stepped to,
      which panics past the end of `costs`. */
  function Advance(g: Grid, pos: nat, dir: bv8): (r: Result<Option<nat>>)
    requires g.Valid()
    ensures r.Ok? && r.value.Some? ==> Step(g, pos, dir) == r && r.value.value < |g.costs|
    ensures r.Ok? && r.value.None? ==> Step(g, pos, dir) == r
    ensures Rectangular(g) && pos < |g.costs| && dir < 4 ==> r.Ok?
  {
    assert Rectangular(g) && pos < |g.costs| && dir < 4 ==>
      Step(g, pos, dir).Ok? && (Step(g, pos, dir).value.Some? ==> Step(g, pos, dir).value.value < |g.costs|) by {
      if Rectangular(g) && pos < |g.costs| && dir < 4 {
        StepStays(g, pos, dir);
      }
    }
    match Step(g, pos, dir)
    case Ok(Some(q)) => if q < |g.costs| then Ok(Some(q)) else Err(PANIC)
    case other => other
  }

  /** A path of the search: the axis of the start state and the runs. */
  type Path = (bv8, seq<Run>)

  /** Every queued entry is on the grid, on an axis, and reached by its
      recorded path from the top-left cell with exactly its cost. */
  predicate Sound(g: Grid, minSteps: nat, maxSteps: nat, queue: seq<Entry>, paths: seq<Path>)
    requires g.Valid()
  {
    |paths| == |queue| &&
    forall i :: 0 <= i < |queue| ==> Reaches(g, minSteps, maxSteps, paths[i], queue[i])
  }

  /** `path` leads from the top-left cell to the state of `e` with its cost. */
  predicate Reaches(g: Grid, minSteps: nat, maxSteps: nat, path: Path, e: Entry)
    requires g.Valid()
  {
    e.pos < |g.costs| && e.dir < 2 && path.0 < 2 &&
    Follow(g, minSteps, maxSteps, (0, path.0), path.1) == Some(((e.pos, e.dir), e.cost))
  }

  /** The cache slot of a state, `(pos << 1) | dir`: distinct states have
      distinct slots, and a cell's slots lie below twice its index plus
      two. */
  function Slot(pos: nat, dir: bv8): (s: nat)
    requires dir < 2
    ensures s / 2 == pos && s % 2 == dir as nat
    ensures s < 2 * pos + 2
  {
    2 * pos + dir as nat
  }

  /** Every cache slot is at most what it was. */
  predicate Lowered(now: seq<nat>, before: seq<nat>)
  {
    |now| == |before| && forall j :: 0 <= j < |now| ==> now[j] <= before[j]
  }

  /** The entries `queue'` adds to `queue` are states on `axis` queued below
      the cost `cache0` held for them. */
  predicate Beats(queue: seq<Entry>, queue': seq<Entry>, cache0: seq<nat>, axis: bv8)
    requires axis < 2
  {
    queue <= queue' &&
    forall k :: |queue| <= k < |queue'| ==>
      queue'[k].dir == axis && Slot(queue'[k].pos, axis) < |cache0| &&
      queue'[k].cost < cache0[Slot(queue'[k].pos, axis)]
  }

  /** The invariant of a turn's pushes. */
  predicate Pushing(g: Grid, minSteps: nat, maxSteps: nat, queue: seq<Entry>, queue': seq<Entry>,
                    paths': seq<Path>, cache: seq<nat>, cache0: seq<nat>, axis: bv8)
    requires g.Valid() && axis < 2
  {
    Sound(g, minSteps, maxSteps, queue', paths') && Lowered(cache, cache0) && Beats(queue, queue', cache0, axis)
  }

  /** Pushing a reached state below its cached cost, and lowering the cache
      to that cost, keeps the invariant. */
  lemma PushStep(g: Grid, minSteps: nat, maxSteps: nat, queue: seq<Entry>, queue': seq<Entry>,
                 paths': seq<Path>, cache: seq<nat>, cache0: seq<nat>, axis: bv8, e: Entry, path: Path)
    requires g.Valid() && axis < 2
    requires Pushing(g, minSteps, maxSteps, queue, queue', paths', cache, cache0, axis)
    requires e.dir == axis && Reaches(g, minSteps, maxSteps, path, e)
    requires Slot(e.pos, axis) < |cache| && e.cost < cache[Slot(e.pos, axis)]
    ensures Pushing(g, minSteps, maxSteps, queue, queue' + [e], paths' + [path],
                    cache[Slot(e.pos, axis) := e.cost], cache0, axis)
  {
    var q2 := queue' + [e];
    assert forall k :: 0 <= k < |queue'| ==> q2[k] == queue'[k];
    assert (paths' + [path])[|queue'|] == path;
    assert forall k :: 0 <= k < |queue'| ==> (paths' + [path])[k] == paths'[k];
  }

  /** A run of `steps` blocks in `turnDir` from the end of `path` reaches
      the state it ends on, and pushing that state below its cached cost,
      lowering the cache to that cost, keeps the invariant of the pushes. */
  lemma PushRun(g: Grid, minSteps: nat, maxSteps: nat, queue: seq<Entry>, pushed: seq<Entry>, paths': seq<Path>,
                cache: seq<nat>, cache0: seq<nat>, path: Path, from: Entry, turnDir: bv8, steps: nat, newPos: nat, lost: nat)
    requires g.Valid() && Reaches(g, minSteps, maxSteps, path, from) && turnDir in TurnDirs(from.dir)
    requires Pushing(g, minSteps, maxSteps, queue, pushed, paths', cache, cache0, from.dir ^ 1)
    requires Queued(minSteps, maxSteps, steps) && Walked(g, from.pos, turnDir, steps, newPos, lost)
    requires Slot(newPos, from.dir ^ 1) < |cache| && from.cost + lost < cache[Slot(newPos, from.dir ^ 1)]
    ensures Pushing(g, minSteps, maxSteps, queue, pushed + [Entry(newPos, from.dir ^ 1, from.cost + lost)],
                    paths' + [(path.0, path.1 + [Run(turnDir, steps)])],
                    cache[Slot(newPos, from.dir ^ 1) := from.cost + lost], cache0, from.dir ^ 1)
  {
    FollowSnoc(g, minSteps, maxSteps, (0, path.0), path.1, Run(turnDir, steps));
    TurnsPerpendicular(from.dir, turnDir);
    PushStep(g, minSteps, maxSteps, queue, pushed, paths', cache, cache0, from.dir ^ 1,
             Entry(newPos, from.dir ^ 1, from.cost + lost), (path.0, path.1 + [Run(turnDir, steps)]));
  }

  /** `steps` blocks walked in `dir` from `pos` end on the cell `newPos`
      having lost `lost`. */
  predicate Walked(g: Grid, pos: nat, dir: bv8, steps: nat, newPos: nat, lost: nat)
    requires g.Valid()
  {
    Walk(g, pos, dir, steps) == Some((newPos, lost)) && newPos < |g.costs|
  }

  lemma WalkStep(g: Grid, pos: nat, dir: bv8, steps: nat, newPos: nat, lost: nat)
    requires g.Valid() && Walked(g, pos, dir, steps, newPos, lost)
    requires Advance(g, newPos, dir).Ok? && Advance(g, newPos, dir).value.Some?
    ensures var q := Advance(g, newPos, dir).value.value;
      Walked(g, pos, dir, steps + 1, q, lost + g.costs[q])
  {
  }

  /** The forced steps of a turn, `for _ in 1..min`: where they end and the
      heat they lose, or none when an edge stops them. */
  method WalkForced(g: Grid, pos: nat, dir: bv8, minSteps: nat) returns (r: Result<Option<(nat, nat)>>)
    requires g.Valid() && pos < |g.costs|
    ensures r.Ok? && r.value.Some? ==> Walked(g, pos, dir, ForcedSteps(minSteps), r.value.value.0, r.value.value.1)
    ensures Rectangular(g) && dir < 4 ==> r.Ok?
  {
    var newPos, lost := pos, 0;
    var i := 1;
    while i < minSteps
      invariant 1 <= i <= (if minSteps >= 1 then minSteps else 1)
      invariant Walked(g, pos, dir, i - 1, newPos, lost)
    {
      var s := Advance(g, newPos, dir);
      if s.Err? {
        return Err(PANIC);
      }
      if s.value.None? {
        return Ok(None);
      }
      WalkStep(g, pos, dir, i - 1, newPos, lost);
      newPos := s.value.value;
      lost := lost + g.costs[newPos];
      i := i + 1;
    }
    return Ok(Some((newPos, lost)));
  }

  /** The end of a step of a turn: queue the state reached if its cost
      beats the cache slot of that state, and lower the slot. */
  method Offer(g: Grid, minSteps: nat, maxSteps: nat, queue: seq<Entry>, pushed: seq<Entry>, ghost paths: seq<Path>,
               cache: array<nat>, ghost cache0: seq<nat>, ghost path: Path, from: Entry, turnDir: bv8,
               ghost steps: nat, newPos: nat, newCost: nat, ghost lost: nat)
    returns (pushed': seq<Entry>, ghost paths': seq<Path>)
    requires g.Valid() && cache.Length == 2 * |g.costs|
    requires Reaches(g, minSteps, maxSteps, path, from) && turnDir in TurnDirs(from.dir)
    requires Pushing(g, minSteps, maxSteps, queue, pushed, paths, cache[..], cache0, from.dir ^ 1)
    requires Queued(minSteps, maxSteps, steps) && Walked(g, from.pos, turnDir, steps, newPos, lost)
    requires newCost == from.cost + lost
    modifies cache
    ensures Pushing(g, minSteps, maxSteps, queue, pushed', paths', cache[..], cache0, from.dir ^ 1)
  {
    var slot := Slot(newPos, from.dir ^ 1);
    if cache[slot] > newCost {
      PushRun(g, minSteps, maxSteps, queue, pushed, paths, cache[..], cache0, path, from, turnDir, steps, newPos, lost);
      cache[slot] := newCost;
      pushed', paths' := pushed + [Entry(newPos, from.dir ^ 1, newCost)], paths + [(path.0, path.1 + [Run(turnDir, steps)])];
    } else {
      pushed', paths' := pushed, paths;
    }
  }

  /** One turn of `do_solve` from the popped entry `from`: walk the forced
      steps in `turnDir`, giving up at an edge, then push the state after
      each further step whose cost beats the cache, lowering the cache. */
  method Turn(g: Grid, minSteps: nat, maxSteps: nat, from: Entry, turnDir: bv8, cache: array<nat>,
              queue: seq<Entry>, ghost paths: seq<Path>, ghost path: Path)
    returns (r: Result<seq<Entry>>, ghost paths': seq<Path>)
    requires g.Valid() && cache.Length == 2 * |g.costs|
    requires Sound(g, minSteps, maxSteps, queue, paths) && Reaches(g, minSteps, maxSteps, path, from)
    requires turnDir in TurnDirs(from.dir)
    modifies cache
    ensures Lowered(cache[..], old(cache[..]))
    ensures r.Ok? ==> Pushing(g, minSteps, maxSteps, queue, r.value, paths', cache[..], old(cache[..]), from.dir ^ 1)
    ensures Rectangular(g) ==> r.Ok?
  {
    TurnsPerpendicular(from.dir, turnDir);
    var leftDir := from.dir ^ 1;
    ghost var cache0 := cache[..];
    var forced := WalkForced(g, from.pos, turnDir, minSteps);
    if forced.Err? {
      return Err(PANIC), paths;
    }
    if forced.value.None? {
      return Ok(queue), paths;
    }
    var newPos := forced.value.value.0;
    var newCost := from.cost + forced.value.value.1;
    ghost var lost: nat := forced.value.value.1;
    ghost var steps: nat := ForcedSteps(minSteps);
    var pushed := queue;
    paths' := paths;
    assert Pushing(g, minSteps, maxSteps, queue, pushed, paths', cache[..], cache0, leftDir);
    var j := minSteps;
    while j <= maxSteps
      invariant minSteps <= j && (minSteps <= maxSteps ==> j <= maxSteps + 1)
      invariant steps + minSteps == ForcedSteps(minSteps) + j
      invariant Walked(g, from.pos, turnDir, steps, newPos, lost) && newCost == from.cost + lost
      invariant Pushing(g, minSteps, maxSteps, queue, pushed, paths', cache[..], cache0, leftDir)
    {
      var s := Advance(g, newPos, turnDir);
      if s.Err? {
        return Err(PANIC), paths';
      }
      if s.value.None? {
        break;
      }
      WalkStep(g, from.pos, turnDir, steps, newPos, lost);
      newPos := s.value.value;
      newCost := newCost + g.costs[newPos];
      lost := lost + g.costs[newPos];
      steps := steps + 1;
      pushed, paths' := Offer(g, minSteps, maxSteps, queue, pushed, paths', cache, cache0, path, from, turnDir, steps, newPos, newCost, lost);
      j := j + 1;
    }
    return Ok(pushed), paths';
  }

  /** Pushes that beat an intermediate cache beat the cache it came
      from. */
  lemma BeatsChain(queue: seq<Entry>, q1: seq<Entry>, q2: seq<Entry>, c0: seq<nat>, c1: seq<nat>, axis: bv8)
    requires axis < 2 && Beats(queue, q1, c0, axis) && Beats(q1, q2, c1, axis) && Lowered(c1, c0)
    ensures Beats(queue, q2, c0, axis)
  {
    forall k | |queue| <= k < |q2|
      ensures q2[k].dir == axis && Slot(q2[k].pos, axis) < |c0| && q2[k].cost < c0[Slot(q2[k].pos, axis)]
    {
      if k < |q1| {
        assert q2[k] == q1[k];
      }
    }
  }

  /** The turn loop of `do_solve`: the left turn, then the right turn, from
      the popped entry `from`. */
  method Expand(g: Grid, minSteps: nat, maxSteps: nat, from: Entry, cache: array<nat>,
                queue: seq<Entry>, ghost paths: seq<Path>, ghost path: Path)
    returns (r: Result<seq<Entry>>, ghost paths': seq<Path>)
    requires g.Valid() && cache.Length == 2 * |g.costs|
    requires Sound(g, minSteps, maxSteps, queue, paths) && Reaches(g, minSteps, maxSteps, path, from)
    modifies cache
    ensures Lowered(cache[..], old(cache[..]))
    ensures r.Ok? ==> Pushing(g, minSteps, maxSteps, queue, r.value, paths', cache[..], old(cache[..]), from.dir ^ 1)
    ensures Rectangular(g) ==> r.Ok?
  {
    var leftDir := from.dir ^ 1;
    var rightDir := leftDir ^ 2;
    TurnsPerpendicular(from.dir, leftDir);
    TurnsPerpendicular(from.dir, rightDir);
    ghost var cache0 := cache[..];
    r, paths' := Turn(g, minSteps, maxSteps, from, leftDir, cache, queue, paths, path);
    if r.Ok? {
      var q1 := r.value;
      ghost var cache1 := cache[..];
      r, paths' := Turn(g, minSteps, maxSteps, from, rightDir, cache, q1, paths', path);
      if r.Ok? {
        BeatsChain(queue, q1, r.value, cache0, cache1, leftDir);
      }
    }
  }

  // ------------------------------------------------------------ visited bits

  /** Bit `d` of a cell's visited mask, `mask & (1 << d) != 0`. */
  predicate Bit(mask: bv8, d: bv8)
    requires d < 8
  {
    mask & (1 << d) != 0
  }

  /** Setting bit `d` sets that bit and leaves the others. */
  lemma SetBit(mask: bv8, d: bv8, d': bv8)
    requires d < 8 && d' < 8
    ensures Bit(mask | (1 << d), d') <==> d' == d || Bit(mask, d')
  {
  }

  /** The clear axis bits of one mask. */
  function Clear(mask: bv8): nat
  {
    (if Bit(mask, 0) then 0 else 1) + (if Bit(mask, 1) then 0 else 1)
  }

  /** The clear axis bits of all masks: the states never expanded. */
  function CountClear(masks: seq<bv8>): nat
  {
    if masks == [] then 0 else CountClear(masks[..|masks| - 1]) + Clear(masks[|masks| - 1])
  }

  lemma {:induction false} CountClearUpdate(masks: seq<bv8>, p: nat, v: bv8)
    requires p < |masks|
    ensures CountClear(masks[p := v]) + Clear(masks[p]) == CountClear(masks) + Clear(v)
    decreases |masks|
  {
    var n := |masks| - 1;
    if p < n {
      assert masks[p := v][..n] == masks[..n][p := v];
      CountClearUpdate(masks[..n], p, v);
    } else {
      assert masks[p := v][..n] == masks[..n];
    }
  }

  /** The states expanded so far, each once, are the states whose bit is
      set. */
  ghost predicate Marked(visited: seq<bv8>, expanded: seq<State>)
  {
    (forall j :: 0 <= j < |expanded| ==>
      expanded[j].0 < |visited| && expanded[j].1 < 2 && Bit(visited[expanded[j].0], expanded[j].1)) &&
    (forall p: nat, d: bv8 :: p < |visited| && d < 2 && Bit(visited[p], d) ==> (p, d) in expanded) &&
    Distinct(expanded)
  }

  /** No state occurs twice. */
  predicate Distinct(states: seq<State>)
  {
    forall j, k :: 0 <= j < k < |states| ==> states[j] != states[k]
  }

  /** Expanding a state whose bit is clear sets it, records the state once
      and clears one bit fewer. */
  lemma MarkStep(visited: seq<bv8>, expanded: seq<State>, p: nat, d: bv8)
    requires Marked(visited, expanded) && p < |visited| && d < 2 && !Bit(visited[p], d)
    ensures Marked(visited[p := visited[p] | (1 << d)], expanded + [(p, d)])
    ensures CountClear(visited[p := visited[p] | (1 << d)]) < CountClear(visited)
  {
    var v := visited[p := visited[p] | (1 << d)];
    var e := expanded + [(p, d)];
    SetBit(visited[p], d, 0);
    SetBit(visited[p], d, 1);
    CountClearUpdate(visited, p, visited[p] | (1 << d));
    assert (p, d) !in expanded;
    forall j | 0 <= j < |e|
      ensures e[j].0 < |v| && e[j].1 < 2 && Bit(v[e[j].0], e[j].1)
    {
      if j < |expanded| {
        assert e[j] == expanded[j];
        SetBit(visited[p], d, e[j].1);
      }
    }
    forall q: nat, d': bv8 | q < |v| && d' < 2 && Bit(v[q], d')
      ensures (q, d') in e
    {
      if q == p {
        SetBit(visited[p], d, d');
      }
    }
  }

  // ------------------------------------------------------------ do_solve

  /** The invariant of the search loop. */
  ghost predicate Searching(g: Grid, minSteps: nat, maxSteps: nat, visited: seq<bv8>, queue: seq<Entry>,
                      paths: seq<Path>, expanded: seq<State>)
    requires g.Valid()
  {
    |visited| == |g.costs| && Sound(g, minSteps, maxSteps, queue, paths) && Marked(visited, expanded)
  }

  /** Taking entry `i` out of the queue keeps the rest reached. */
  lemma PopStep(g: Grid, minSteps: nat, maxSteps: nat, queue: seq<Entry>, paths: seq<Path>, i: nat)
    requires g.Valid() && Sound(g, minSteps, maxSteps, queue, paths) && i < |queue|
    ensures Sound(g, minSteps, maxSteps, queue[..i] + queue[i + 1..], paths[..i] + paths[i + 1..])
    ensures Reaches(g, minSteps, maxSteps, paths[i], queue[i])
  {
    var q, ps := queue[..i] + queue[i + 1..], paths[..i] + paths[i + 1..];
    assert forall k :: 0 <= k < |q| ==> q[k] == if k < i then queue[k] else queue[k + 1];
    assert forall k :: 0 <= k < |ps| ==> ps[k] == if k < i then paths[k] else paths[k + 1];
  }

  /** Some path leads from the top-left cell to `goal` losing `cost`. */
  ghost predicate Reachable(g: Grid, minSteps: nat, maxSteps: nat, goal: nat, cost: nat)
    requires g.Valid()
  {
    exists axis: bv8, runs: seq<Run> :: PathTo(g, minSteps, maxSteps, axis, runs, goal, cost)
  }

  /** Expanding a state whose bit was clear keeps the invariant of the
      search and clears one bit fewer. */
  lemma VisitStep(g: Grid, minSteps: nat, maxSteps: nat, before: seq<bv8>, queue: seq<Entry>, paths: seq<Path>,
                  expanded: seq<State>, from: Entry, queue': seq<Entry>, paths': seq<Path>)
    requires g.Valid() && Searching(g, minSteps, maxSteps, before, queue, paths, expanded)
    requires from.pos < |before| && from.dir < 2 && !Bit(before[from.pos], from.dir)
    requires Sound(g, minSteps, maxSteps, queue', paths')
    ensures var after := before[from.pos := before[from.pos] | (1 << from.dir)];
      Searching(g, minSteps, maxSteps, after, queue', paths', expanded + [(from.pos, from.dir)]) &&
      CountClear(after) < CountClear(before)
  {
    MarkStep(before, expanded, from.pos, from.dir);
  }

  /** The body of the search loop after a pop that is not the goal: skip a
      state whose visited bit is set; otherwise set it and run both turns.
      Either one more state is expanded, or nothing changes. */
  method Visit(g: Grid, minSteps: nat, maxSteps: nat, from: Entry, ghost path: Path, visited: array<bv8>,
               cache: array<nat>, queue: seq<Entry>, ghost paths: seq<Path>, ghost expanded: seq<State>)
    returns (r: Result<seq<Entry>>, ghost paths': seq<Path>, ghost expanded': seq<State>)
    requires g.Valid() && cache.Length == 2 * |g.costs|
    requires Searching(g, minSteps, maxSteps, visited[..], queue, paths, expanded)
    requires Reaches(g, minSteps, maxSteps, path, from)
    modifies visited, cache
    ensures r.Ok? ==> Searching(g, minSteps, maxSteps, visited[..], r.value, paths', expanded')
    ensures r.Ok? ==> CountClear(visited[..]) < old(CountClear(visited[..])) || (visited[..] == old(visited[..]) && r.value == queue)
    ensures Rectangular(g) ==> r.Ok?
  {
    if visited[from.pos] & (1 << from.dir) != 0 {
      return Ok(queue), paths, expanded;
    }
    ghost var before := visited[..];
    visited[from.pos] := visited[from.pos] | (1 << from.dir);
    assert visited[..] == before[from.pos := before[from.pos] | (1 << from.dir)];
    expanded' := expanded + [(from.pos, from.dir)];
    r, paths' := Expand(g, minSteps, maxSteps, from, cache, queue, paths, path);
    if r.Ok? {
      VisitStep(g, minSteps, maxSteps, before, queue, paths, expanded, from, r.value, paths');
    }
  }

  /** `do_solve`: pop the cheapest state, most recently queued first; stop
      at the bottom-right cell; skip a state already expanded; otherwise
      mark it and run both turns. The cost returned is that of a path of
      the allowed runs to the goal, each state is expanded at most once,
      and the search panics only on an empty or ragged grid. */
  method DoSolve(g: Grid, minSteps: nat, maxSteps: nat)
    returns (r: Result<Option<nat>>, ghost path: Path, ghost expanded: seq<State>)
    requires g.Valid()
    ensures |g.costs| == 0 ==> r.Err?
    ensures Rectangular(g) ==> r.Ok?
    ensures r.Ok? && r.value.Some? ==> PathTo(g, minSteps, maxSteps, path.0, path.1, |g.costs| - 1, r.value.value)
    ensures Distinct(expanded)
  {
    path, expanded := (UP, []), [];
    if |g.costs| == 0 {
      return Err(PANIC), path, expanded;
    }
    var goal := |g.costs| - 1;
    var visited := new bv8[|g.costs|](_ => 0);
    var cache := new nat[2 * |g.costs|](_ => USIZE_MAX);
    var queue := [Entry(0, UP, 0), Entry(0, RIGHT, 0)];
    ghost var paths: seq<Path> := [(UP, []), (RIGHT, [])];
    while queue != []
      invariant Searching(g, minSteps, maxSteps, visited[..], queue, paths, expanded)
      decreases CountClear(visited[..]), |queue|
    {
      var cost := MinCost(queue);
      var i := LastAt(queue, cost);
      var e := queue[i];
      PopStep(g, minSteps, maxSteps, queue, paths, i);
      path := paths[i];
      if e.pos == goal {
        return Ok(Some(cost)), path, expanded;
      }
      var pushed;
      ghost var expanded';
      pushed, paths, expanded' := Visit(g, minSteps, maxSteps, e, path, visited, cache,
                                        queue[..i] + queue[i + 1..], paths[..i] + paths[i + 1..], expanded);
      if pushed.Err? {
        return Err(PANIC), path, expanded;
      }
      expanded := expanded';
      queue := pushed.value;
    }
    return Ok(None), path, expanded;
  }

  /** `solve`: part 1 with runs of one to three blocks, part 2 with runs of
      four to ten; a search that finds no path panics on `unwrap`. */
  method Solve(input: string) returns (r: Result<(nat, nat)>)
    ensures var g := NewGrid(input);
      r.Ok? ==> (|g.costs| > 0 &&
        Reachable(g, 1, 3, |g.costs| - 1, r.value.0) && Reachable(g, 4, 10, |g.costs| - 1, r.value.1))
    ensures |NewGrid(input).costs| == 0 ==> r.Err?
  {
    var g := NewGrid(input);
    var part1, path1, _ := DoSolve(g, 1, 3);
    var part2, path2, _ := DoSolve(g, 4, 10);
    if part1.Err? || part1.value.None? || part2.Err? || part2.value.None? {
      return Err(PANIC);
    }
    r := Ok((part1.value.value, part2.value.value));
  }
}
